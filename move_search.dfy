/**
 * The queue-driven search that offers the destinations of a selected piece
 * (`GameState::HighLightAllPossibleTiles` and `GameState::ProcessHighLightTile`), as pure functions
 * over the board's tiles, the danger map (jump landing tile -> captured tile indices), the move map
 * (one plain step per diagonal) and the queue of tiles to expand.
 *
 * Each expanded tile tries its four diagonals in the order of the source: left-forward,
 * left-backward, right-forward, right-backward. Backward diagonals are open only when the piece on
 * the origin tile is a king. A plain step is recorded when the adjacent tile is empty; a jump is
 * taken when the adjacent tile holds an opponent piece that no danger list holds yet and the tile
 * beyond it is empty. A jump launched from a tile that is itself a landing tile passes that tile's
 * captures on to the new landing tile, un-highlights it and erases its key.
 */
module MoveSearch {
  import opened Wrappers
  import opened CheckersConstants
  import opened Pieces
  import opened Tiles

  /** The four diagonals, seen from the player at the bottom of the board: forward is one row up. */
  datatype Dir = LeftFwd | RightFwd | LeftBack | RightBack

  predicate Backward(d: Dir) { d.LeftBack? || d.RightBack? }

  predicate Leftward(d: Dir) { d.LeftFwd? || d.LeftBack? }

  /** Backward diagonals are open to kings only. */
  predicate Allowed(d: Dir, king: bool) { !Backward(d) || king }

  /** The order in which each expanded tile tries its diagonals. */
  const SearchOrder: seq<Dir> := [LeftFwd, LeftBack, RightFwd, RightBack]

  /** The order in which the move map's entries are created. */
  const MoveMapOrder: seq<Dir> := [LeftFwd, RightFwd, LeftBack, RightBack]

  /** The tile `dist` steps away from `index` along `d`, when it is on the board. */
  function Diagonal(index: nat, d: Dir, dist: nat): (r: Option<nat>)
    requires IsIndex(index)
    ensures r.Some? ==> IsIndex(r.value)
    ensures r.Some? && dist > 0 ==> r.value != index
  {
    var pos := GetVec2FromIndex(index);
    var x: int := if Leftward(d) then pos.x - dist else pos.x + dist;
    var y: int := if Backward(d) then pos.y + dist else pos.y - dist;
    if 0 <= x < BoardWidth && 0 <= y < BoardHeight then Some(GetIndexFromPos(x, y)) else None
  }

  /** A tile two steps away is on the board only if the tile one step away is. */
  lemma DiagonalNearer(index: nat, d: Dir)
    requires IsIndex(index)
    ensures Diagonal(index, d, 2).Some? ==> Diagonal(index, d, 1).Some?
  {
  }

  predicate HoldsOpponent(t: Tile, player: CheckersColor)
  {
    t.piece.Some? && t.piece.value.color != player
  }

  /** `std::unordered_map::operator[]` on a key that may be absent: an empty list. */
  function Lookup(danger: map<nat, seq<nat>>, key: nat): seq<nat>
  {
    if key in danger then danger[key] else []
  }

  /** `IsInDanger`: some danger list holds `index`. */
  predicate InDanger(danger: map<nat, seq<nat>>, index: nat)
  {
    exists k :: k in danger && index in danger[k]
  }

  /** Every index held by some danger list. */
  function Captured(danger: map<nat, seq<nat>>): set<nat>
  {
    set k, x | k in danger && x in danger[k] :: x
  }

  lemma InDangerCaptured(danger: map<nat, seq<nat>>, index: nat)
    ensures InDanger(danger, index) <==> index in Captured(danger)
  {
    if index in Captured(danger) {
      var k, x :| k in danger && x in danger[k] && x == index;
    }
  }

  /** The tiles holding a piece of the other side. */
  function Opponents(tiles: seq<Tile>, player: CheckersColor): set<nat>
  {
    set i | 0 <= i < |tiles| && HoldsOpponent(tiles[i], player)
  }

  /** The search changes highlights only: every tile keeps its piece, its rectangle and its colour. */
  predicate SameButHighlights(a: seq<Tile>, b: seq<Tile>)
  {
    |a| == |b| && forall i | 0 <= i < |a| :: a[i].piece == b[i].piece && a[i].rect == b[i].rect && a[i].side == b[i].side
  }

  lemma OpponentsUnchanged(a: seq<Tile>, b: seq<Tile>, player: CheckersColor)
    requires SameButHighlights(a, b)
    ensures Opponents(a, player) == Opponents(b, player)
  {
  }

  datatype Search = Search(tiles: seq<Tile>, danger: map<nat, seq<nat>>, moveMap: map<Dir, nat>, queue: seq<nat>)

  predicate MoveMapOk(moveMap: map<Dir, nat>)
  {
    forall d | d in moveMap :: moveMap[d] == InvalidIndex || IsIndex(moveMap[d])
  }

  predicate Wf(s: Search)
  {
    |s.tiles| == BoardSize
    && (forall i | 0 <= i < |s.queue| :: IsIndex(s.queue[i]))
    && MoveMapOk(s.moveMap)
  }

  /** Opponent pieces not captured yet, plus tiles waiting in the queue: every expansion lowers it. */
  function Remaining(s: Search, player: CheckersColor): nat
  {
    |Opponents(s.tiles, player) - Captured(s.danger)| + |s.queue|
  }

  /** The move map the search starts with: no plain step on any diagonal. */
  const InitialMoveMap: map<Dir, nat> :=
    map[LeftFwd := InvalidIndex, RightFwd := InvalidIndex, LeftBack := InvalidIndex, RightBack := InvalidIndex]

  /** Land on `j` over `t`: highlight `j`, add `t` to the list of `j`, and queue `j`. */
  function Land(s: Search, t: nat, j: nat): (r: Search)
    requires |s.tiles| == BoardSize && IsIndex(j)
  {
    Search(s.tiles[j := s.tiles[j].SetHighLighted()], s.danger[j := Lookup(s.danger, j) + [t]], s.moveMap, s.queue + [j])
  }

  /** Multiple hop: a jump from a landing tile `cur` hands its captures on to `j`. */
  function Inherit(s: Search, cur: nat, j: nat): (r: Search)
    requires |s.tiles| == BoardSize && IsIndex(cur)
  {
    if cur in s.danger then
      s.(tiles := s.tiles[cur := s.tiles[cur].Reset()],
         danger := s.danger[j := Lookup(s.danger, j) + s.danger[cur]] - {cur})
    else s
  }

  /** The jump of `ProcessHighLightTile` from `cur` over `t` to `j`. */
  function Jump(s: Search, cur: nat, t: nat, j: nat): Search
    requires |s.tiles| == BoardSize && IsIndex(cur) && IsIndex(j)
  {
    Inherit(Land(s, t, j), cur, j)
  }

  /** What happens to the tile `j` could land on: the jump from `cur` along `d` is possible with
      these pieces, whatever has been captured already. */
  predicate JumpOpen(tiles: seq<Tile>, cur: nat, d: Dir, player: CheckersColor, king: bool)
    requires |tiles| == BoardSize && IsIndex(cur)
  {
    var target := Diagonal(cur, d, 1);
    var jump := Diagonal(cur, d, 2);
    Allowed(d, king) && target.Some? && jump.Some?
    && tiles[jump.value].piece.None? && HoldsOpponent(tiles[target.value], player)
  }

  /** A plain step from `cur` along `d` is possible. */
  predicate StepOpen(tiles: seq<Tile>, cur: nat, d: Dir, king: bool)
    requires |tiles| == BoardSize && IsIndex(cur)
  {
    var target := Diagonal(cur, d, 1);
    Allowed(d, king) && target.Some? && tiles[target.value].piece.None?
  }

  /** `ProcessHighLightTile` for the tile `cur` and the diagonal `d`. */
  function ProcessTile(s: Search, cur: nat, d: Dir, player: CheckersColor, king: bool): (r: Search)
    requires Wf(s) && IsIndex(cur)
    ensures Wf(r) && SameButHighlights(r.tiles, s.tiles)
  {
    var target := Diagonal(cur, d, 1);
    var jump := Diagonal(cur, d, 2);
    var s1 := if StepOpen(s.tiles, cur, d, king) then s.(moveMap := s.moveMap[d := target.value]) else s;
    if JumpOpen(s1.tiles, cur, d, player, king) && !InDanger(s1.danger, target.value) then
      JumpWf(s1, cur, target.value, jump.value);
      Jump(s1, cur, target.value, jump.value)
    else s1
  }

  lemma CapturedAfterLand(s: Search, t: nat, j: nat)
    requires |s.tiles| == BoardSize && IsIndex(j)
    ensures Captured(Land(s, t, j).danger) == Captured(s.danger) + {t}
  {
    var d := s.danger;
    var d1 := Land(s, t, j).danger;
    forall x | x in Captured(d1) ensures x in Captured(d) + {t} {
      var k :| k in d1 && x in d1[k];
      if k != j {
        assert x in d[k];
      } else if x != t {
        assert x in Lookup(d, j);
        assert x in d[j];
      }
    }
    forall x | x in Captured(d) + {t} ensures x in Captured(d1) {
      if x == t {
        assert x in d1[j];
      } else {
        var k :| k in d && x in d[k];
        if k == j {
          assert x in d1[j];
        } else {
          assert x in d1[k];
        }
      }
    }
  }

  lemma CapturedAfterInherit(s: Search, cur: nat, j: nat)
    requires |s.tiles| == BoardSize && IsIndex(cur) && cur != j
    ensures Captured(Inherit(s, cur, j).danger) == Captured(s.danger)
    ensures j in s.danger ==> j in Inherit(s, cur, j).danger
  {
    if cur in s.danger {
      var d := s.danger;
      var d2 := Inherit(s, cur, j).danger;
      forall x | x in Captured(d2) ensures x in Captured(d) {
        var k :| k in d2 && x in d2[k];
        if k != j {
          assert x in d[k];
        } else if x in Lookup(d, j) {
          assert x in d[j];
        } else {
          assert x in d[cur];
        }
      }
      forall x | x in Captured(d) ensures x in Captured(d2) {
        var k :| k in d && x in d[k];
        if k == cur || k == j {
          assert x in d2[j];
        } else {
          assert x in d2[k];
        }
      }
    }
  }

  lemma CardRemoveOne(a: set<nat>, c: set<nat>, t: nat)
    requires t in a && t !in c
    ensures |a - (c + {t})| + 1 == |a - c|
  {
    assert a - c == (a - (c + {t})) + {t};
  }

  /** A jump moves no piece and keeps the queue on the board. */
  lemma JumpWf(s: Search, cur: nat, t: nat, j: nat)
    requires Wf(s) && IsIndex(cur) && IsIndex(j)
    ensures Wf(Jump(s, cur, t, j)) && SameButHighlights(Jump(s, cur, t, j).tiles, s.tiles)
  {
    var l := Land(s, t, j);
    assert l.queue == s.queue + [j];
    assert SameButHighlights(l.tiles, s.tiles);
  }

  /** A jump captures a piece that no list held before, so it lowers the count of uncaptured
      opponent pieces by one while queueing one tile. */
  lemma JumpMeasure(s: Search, cur: nat, t: nat, j: nat, player: CheckersColor)
    requires Wf(s) && IsIndex(cur) && IsIndex(j) && IsIndex(t) && cur != j
    requires HoldsOpponent(s.tiles[t], player) && !InDanger(s.danger, t)
    ensures Wf(Jump(s, cur, t, j)) && SameButHighlights(Jump(s, cur, t, j).tiles, s.tiles)
    ensures Remaining(Jump(s, cur, t, j), player) == Remaining(s, player)
  {
    var r := Jump(s, cur, t, j);
    JumpCounts(s, cur, t, j, player);
    InDangerCaptured(s.danger, t);
    CardRemoveOne(Opponents(s.tiles, player), Captured(s.danger), t);
  }

  /** What a jump does to the three parts of the count. */
  lemma JumpCounts(s: Search, cur: nat, t: nat, j: nat, player: CheckersColor)
    requires Wf(s) && IsIndex(cur) && IsIndex(j) && IsIndex(t) && cur != j
    requires HoldsOpponent(s.tiles[t], player)
    ensures Wf(Jump(s, cur, t, j)) && SameButHighlights(Jump(s, cur, t, j).tiles, s.tiles)
    ensures Opponents(Jump(s, cur, t, j).tiles, player) == Opponents(s.tiles, player)
    ensures t in Opponents(s.tiles, player)
    ensures Captured(Jump(s, cur, t, j).danger) == Captured(s.danger) + {t}
    ensures |Jump(s, cur, t, j).queue| == |s.queue| + 1
  {
    var r := Jump(s, cur, t, j);
    JumpWf(s, cur, t, j);
    CapturedAfterLand(s, t, j);
    CapturedAfterInherit(Land(s, t, j), cur, j);
    OpponentsUnchanged(r.tiles, s.tiles, player);
  }

  /** A diagonal never raises the count: a jump captures exactly as much as it queues. */
  lemma ProcessTileMeasure(s: Search, cur: nat, d: Dir, player: CheckersColor, king: bool)
    requires Wf(s) && IsIndex(cur)
    ensures Remaining(ProcessTile(s, cur, d, player, king), player) <= Remaining(s, player)
  {
    var target := Diagonal(cur, d, 1);
    var jump := Diagonal(cur, d, 2);
    var s1 := if StepOpen(s.tiles, cur, d, king) then s.(moveMap := s.moveMap[d := target.value]) else s;
    if JumpOpen(s1.tiles, cur, d, player, king) && !InDanger(s1.danger, target.value) {
      JumpMeasure(s1, cur, target.value, jump.value, player);
    }
  }

  /** One turn of the `while` loop of `HighLightAllPossibleTiles`: the four diagonals of `cur`. */
  function Expand(s: Search, cur: nat, player: CheckersColor, king: bool): (r: Search)
    requires Wf(s) && IsIndex(cur)
    ensures Wf(r) && SameButHighlights(r.tiles, s.tiles)
  {
    var s1 := ProcessTile(s, cur, LeftFwd, player, king);
    var s2 := ProcessTile(s1, cur, LeftBack, player, king);
    var s3 := ProcessTile(s2, cur, RightFwd, player, king);
    ProcessTile(s3, cur, RightBack, player, king)
  }

  lemma ExpandMeasure(s: Search, cur: nat, player: CheckersColor, king: bool)
    requires Wf(s) && IsIndex(cur)
    ensures Remaining(Expand(s, cur, player, king), player) <= Remaining(s, player)
  {
    var s1 := ProcessTile(s, cur, LeftFwd, player, king);
    var s2 := ProcessTile(s1, cur, LeftBack, player, king);
    var s3 := ProcessTile(s2, cur, RightFwd, player, king);
    ProcessTileMeasure(s, cur, LeftFwd, player, king);
    ProcessTileMeasure(s1, cur, LeftBack, player, king);
    ProcessTileMeasure(s2, cur, RightFwd, player, king);
    ProcessTileMeasure(s3, cur, RightBack, player, king);
  }

  /** The `while` loop: expand the front of the queue until the queue is empty. It ends because
      each turn removes a queued tile and every queued tile comes with a fresh capture. */
  function Explore(s: Search, player: CheckersColor, king: bool): (r: Search)
    requires Wf(s)
    ensures Wf(r) && r.queue == [] && SameButHighlights(r.tiles, s.tiles)
    decreases Remaining(s, player)
  {
    if s.queue == [] then s
    else
      ExpandMeasure(s.(queue := s.queue[1..]), s.queue[0], player, king);
      Explore(Expand(s.(queue := s.queue[1..]), s.queue[0], player, king), player, king)
  }

  /** The final loop over the move map: highlight each recorded plain step. */
  function HighlightSteps(tiles: seq<Tile>, moveMap: map<Dir, nat>, dirs: seq<Dir>): (r: seq<Tile>)
    requires |tiles| == BoardSize && MoveMapOk(moveMap)
    ensures SameButHighlights(r, tiles)
    decreases |dirs|
  {
    if dirs == [] then tiles
    else
      var d := dirs[0];
      var next := if d in moveMap && moveMap[d] != InvalidIndex
                  then tiles[moveMap[d] := tiles[moveMap[d]].SetHighLighted()] else tiles;
      HighlightSteps(next, moveMap, dirs[1..])
  }

  /** `HighLightAllPossibleTiles(origin)`, for the piece owner `player`; `king` is the origin piece's
      crown. Plain steps are highlighted only when the danger map ends up empty. */
  function HighLightAll(tiles: seq<Tile>, danger: map<nat, seq<nat>>, origin: nat,
                        player: CheckersColor, king: bool): (r: Search)
    requires |tiles| == BoardSize && IsIndex(origin)
    ensures SameButHighlights(r.tiles, tiles)
  {
    var e := Explore(Search(tiles, danger, InitialMoveMap, [origin]), player, king);
    if e.danger == map[] then
      SameTransitive(HighlightSteps(e.tiles, e.moveMap, MoveMapOrder), e.tiles, tiles);
      e.(tiles := HighlightSteps(e.tiles, e.moveMap, MoveMapOrder))
    else e
  }

  /** The loop that ends a search from a clean board. */
  function Loop(tiles: seq<Tile>, origin: nat, player: CheckersColor, king: bool): Search
    requires |tiles| == BoardSize && IsIndex(origin)
  {
    Explore(Search(tiles, map[], InitialMoveMap, [origin]), player, king)
  }

  // ----- What the search keeps true -----

  predicate NoDup(l: seq<nat>) { forall i, j | 0 <= i < j < |l| :: l[i] != l[j] }

  predicate Disjoint(a: seq<nat>, b: seq<nat>) { forall x | x in a :: x !in b }

  /** No tile index appears twice across all the danger lists. */
  predicate NoDoubleCapture(danger: map<nat, seq<nat>>)
  {
    (forall k | k in danger :: NoDup(danger[k]))
    && (forall k1, k2 | k1 in danger && k2 in danger && k1 != k2 :: Disjoint(danger[k1], danger[k2]))
  }

  /** Every captured tile is on the board and holds an opponent piece. */
  predicate CapturesOpponents(danger: map<nat, seq<nat>>, tiles: seq<Tile>, player: CheckersColor)
  {
    forall k | k in danger :: forall x | x in danger[k] :: 0 <= x < |tiles| && HoldsOpponent(tiles[x], player)
  }

  /** The highlighted tiles are exactly the landing tiles. */
  predicate HighlightsAreLandings(tiles: seq<Tile>, danger: map<nat, seq<nat>>)
  {
    (forall k | k in danger :: IsIndex(k))
    && forall i | 0 <= i < |tiles| :: tiles[i].highLighted <==> i in danger
  }

  /** Every landing tile is empty. */
  predicate LandingsEmpty(danger: map<nat, seq<nat>>, tiles: seq<Tile>)
  {
    forall k | k in danger :: 0 <= k < |tiles| && tiles[k].piece.None?
  }

  /** What a search that starts on a board with no highlights and no captures keeps true. */
  predicate SearchInv(s: Search, player: CheckersColor)
  {
    |s.tiles| == BoardSize
    && CapturesOpponents(s.danger, s.tiles, player)
    && NoDoubleCapture(s.danger)
    && HighlightsAreLandings(s.tiles, s.danger)
    && LandingsEmpty(s.danger, s.tiles)
  }

  lemma InvLand(s: Search, t: nat, j: nat, player: CheckersColor)
    requires SearchInv(s, player) && IsIndex(j) && IsIndex(t) && s.tiles[j].piece.None?
    requires HoldsOpponent(s.tiles[t], player) && t !in Captured(s.danger)
    ensures SearchInv(Land(s, t, j), player)
  {
    var d := s.danger;
    var r := Land(s, t, j);
    assert r.danger == d[j := Lookup(d, j) + [t]];
    LandNoDoubleCapture(d, t, j);
    LandCaptures(d, s.tiles, t, j, player);
    assert SameButHighlights(s.tiles, r.tiles);
    CapturesUnchanged(r.danger, s.tiles, r.tiles, player);
  }

  /** Adding a tile captured by no list to the list of `j` keeps the lists apart. */
  lemma LandNoDoubleCapture(d: map<nat, seq<nat>>, t: nat, j: nat)
    requires NoDoubleCapture(d) && t !in Captured(d)
    ensures NoDoubleCapture(d[j := Lookup(d, j) + [t]])
  {
    var d1 := d[j := Lookup(d, j) + [t]];
    assert forall x | x in Lookup(d, j) :: x in Captured(d);
    assert NoDup(d1[j]) by {
      assert d1[j] == Lookup(d, j) + [t];
    }
    forall k1, k2 | k1 in d1 && k2 in d1 && k1 != k2 ensures Disjoint(d1[k1], d1[k2]) {
      forall x | x in d1[k1] ensures x !in d1[k2] {
        if k1 == j {
          if x != t {
            assert x in d[j];
            assert Disjoint(d[j], d[k2]);
          } else {
            assert d[k2] == d1[k2];
            assert forall y | y in d[k2] :: y in Captured(d);
          }
        } else if k2 == j {
          assert x in d[k1] && x in Captured(d);
          assert x != t;
          if j in d { assert Disjoint(d[k1], d[j]); }
        } else {
          assert Disjoint(d[k1], d[k2]);
        }
      }
    }
  }

  lemma LandCaptures(d: map<nat, seq<nat>>, tiles: seq<Tile>, t: nat, j: nat, player: CheckersColor)
    requires CapturesOpponents(d, tiles, player) && t < |tiles| && HoldsOpponent(tiles[t], player)
    ensures CapturesOpponents(d[j := Lookup(d, j) + [t]], tiles, player)
  {
    var d1 := d[j := Lookup(d, j) + [t]];
    forall k, x | k in d1 && x in d1[k] ensures 0 <= x < |tiles| && HoldsOpponent(tiles[x], player) {
      if x != t {
        assert x in d[k];
      }
    }
  }

  lemma NoDupConcat(a: seq<nat>, b: seq<nat>)
    requires NoDup(a) && NoDup(b) && Disjoint(a, b)
    ensures NoDup(a + b)
  {
    var c := a + b;
    forall i, k | 0 <= i < k < |c| ensures c[i] != c[k] {
      if k < |a| {
      } else if i >= |a| {
        assert c[i] == b[i - |a|] && c[k] == b[k - |a|];
      } else {
        assert c[i] in a && c[k] in b;
      }
    }
  }

  /** Handing the captures of `cur` on to `j` keeps them apart from every other list. */
  lemma InheritNoDoubleCapture(d: map<nat, seq<nat>>, cur: nat, j: nat)
    requires NoDoubleCapture(d) && cur in d && j in d && cur != j
    ensures NoDoubleCapture(d[j := d[j] + d[cur]] - {cur})
  {
    var d2 := d[j := d[j] + d[cur]] - {cur};
    NoDupConcat(d[j], d[cur]);
    forall k1, k2 | k1 in d2 && k2 in d2 && k1 != k2 ensures Disjoint(d2[k1], d2[k2]) {
      if k1 == j {
        assert Disjoint(d[j], d[k2]) && Disjoint(d[cur], d[k2]);
      } else if k2 == j {
        assert Disjoint(d[k1], d[j]) && Disjoint(d[k1], d[cur]);
      } else {
        assert Disjoint(d[k1], d[k2]);
      }
    }
  }

  lemma InvInherit(s: Search, cur: nat, j: nat, player: CheckersColor)
    requires SearchInv(s, player) && IsIndex(cur) && cur != j && j in s.danger
    ensures SearchInv(Inherit(s, cur, j), player)
  {
    if cur in s.danger {
      var d := s.danger;
      var r := Inherit(s, cur, j);
      var d2 := r.danger;
      assert d2 == d[j := d[j] + d[cur]] - {cur};
      InheritNoDoubleCapture(d, cur, j);
      InheritCaptures(d, s.tiles, cur, j, player);
      assert SameButHighlights(s.tiles, r.tiles);
      CapturesUnchanged(d2, s.tiles, r.tiles, player);
    }
  }

  lemma InheritCaptures(d: map<nat, seq<nat>>, tiles: seq<Tile>, cur: nat, j: nat, player: CheckersColor)
    requires CapturesOpponents(d, tiles, player) && cur in d && j in d
    ensures CapturesOpponents(d[j := d[j] + d[cur]] - {cur}, tiles, player)
  {
    var d2 := d[j := d[j] + d[cur]] - {cur};
    forall k, x | k in d2 && x in d2[k] ensures 0 <= x < |tiles| && HoldsOpponent(tiles[x], player) {
      var k0 := if k == j && x !in d[j] then cur else k;
      assert k0 in d && x in d[k0];
    }
  }

  lemma InvProcessTile(s: Search, cur: nat, d: Dir, player: CheckersColor, king: bool)
    requires Wf(s) && SearchInv(s, player) && IsIndex(cur)
    ensures SearchInv(ProcessTile(s, cur, d, player, king), player)
  {
    var target := Diagonal(cur, d, 1);
    var jump := Diagonal(cur, d, 2);
    var s1 := if StepOpen(s.tiles, cur, d, king) then s.(moveMap := s.moveMap[d := target.value]) else s;
    assert SearchInv(s1, player);
    if JumpOpen(s1.tiles, cur, d, player, king) && !InDanger(s1.danger, target.value) {
      InvJump(s1, cur, d, player, king);
    }
  }

  /** The jump along `d`, when it is open and its captured piece is not taken yet, keeps the
      invariant. */
  lemma InvJump(s: Search, cur: nat, d: Dir, player: CheckersColor, king: bool)
    requires Wf(s) && SearchInv(s, player) && IsIndex(cur)
    requires JumpOpen(s.tiles, cur, d, player, king) && !InDanger(s.danger, Diagonal(cur, d, 1).value)
    ensures SearchInv(Jump(s, cur, Diagonal(cur, d, 1).value, Diagonal(cur, d, 2).value), player)
  {
    var t, j := Diagonal(cur, d, 1).value, Diagonal(cur, d, 2).value;
    InDangerCaptured(s.danger, t);
    InvLand(s, t, j, player);
    InvInherit(Land(s, t, j), cur, j, player);
  }

  lemma InvExpand(s: Search, cur: nat, player: CheckersColor, king: bool)
    requires Wf(s) && SearchInv(s, player) && IsIndex(cur)
    ensures SearchInv(Expand(s, cur, player, king), player)
  {
    var s1 := ProcessTile(s, cur, LeftFwd, player, king);
    var s2 := ProcessTile(s1, cur, LeftBack, player, king);
    var s3 := ProcessTile(s2, cur, RightFwd, player, king);
    InvProcessTile(s, cur, LeftFwd, player, king);
    InvProcessTile(s1, cur, LeftBack, player, king);
    InvProcessTile(s2, cur, RightFwd, player, king);
    InvProcessTile(s3, cur, RightBack, player, king);
  }

  /** The search as a whole keeps its invariant. */
  lemma {:induction false} InvExplore(s: Search, player: CheckersColor, king: bool)
    requires Wf(s) && SearchInv(s, player)
    ensures SearchInv(Explore(s, player, king), player)
    decreases Remaining(s, player)
  {
    if s.queue != [] {
      var popped := s.(queue := s.queue[1..]);
      InvExpand(popped, s.queue[0], player, king);
      ExpandMeasure(popped, s.queue[0], player, king);
      InvExplore(Expand(popped, s.queue[0], player, king), player, king);
    }
  }

  // ----- The outcome of a search from a clean board -----

  /** Some jump is open from `origin` (with nothing captured yet). */
  predicate JumpAvailable(tiles: seq<Tile>, origin: nat, player: CheckersColor, king: bool)
    requires |tiles| == BoardSize && IsIndex(origin)
  {
    JumpOpen(tiles, origin, LeftFwd, player, king) || JumpOpen(tiles, origin, LeftBack, player, king)
    || JumpOpen(tiles, origin, RightFwd, player, king) || JumpOpen(tiles, origin, RightBack, player, king)
  }

  /** The empty diagonal neighbours of `origin` in the directions open to the piece. */
  function PlainSteps(tiles: seq<Tile>, origin: nat, king: bool): set<nat>
    requires |tiles| == BoardSize && IsIndex(origin)
  {
    set d | d in MoveMapOrder && StepOpen(tiles, origin, d, king) :: Diagonal(origin, d, 1).value
  }

  predicate NoHighlights(tiles: seq<Tile>)
  {
    forall i | 0 <= i < |tiles| :: !tiles[i].highLighted
  }

  /** Whether a jump or a step is open depends on the pieces only, not on the highlights. */
  lemma OpenUnchanged(a: seq<Tile>, b: seq<Tile>, cur: nat, d: Dir, player: CheckersColor, king: bool)
    requires |a| == BoardSize && SameButHighlights(a, b) && IsIndex(cur)
    ensures JumpOpen(a, cur, d, player, king) == JumpOpen(b, cur, d, player, king)
    ensures StepOpen(a, cur, d, king) == StepOpen(b, cur, d, king)
  {
  }

  /** The move map after a diagonal that offers no jump. */
  function StepUpdate(moveMap: map<Dir, nat>, tiles: seq<Tile>, cur: nat, d: Dir, king: bool): map<Dir, nat>
    requires |tiles| == BoardSize && IsIndex(cur)
  {
    if StepOpen(tiles, cur, d, king) then moveMap[d := Diagonal(cur, d, 1).value] else moveMap
  }

  /** How one diagonal changes the search: without an open jump only the move map can change; with
      one, the danger map is no longer empty; and a non-empty danger map stays non-empty. */
  lemma ProcessTileDanger(s: Search, cur: nat, d: Dir, player: CheckersColor, king: bool)
    requires Wf(s) && IsIndex(cur)
    ensures var r := ProcessTile(s, cur, d, player, king);
      && (!JumpOpen(s.tiles, cur, d, player, king) ==> r == s.(moveMap := StepUpdate(s.moveMap, s.tiles, cur, d, king)))
      && (s.danger != map[] ==> r.danger != map[])
      && (JumpOpen(s.tiles, cur, d, player, king) && s.danger == map[] ==> r.danger != map[])
  {
    var target := Diagonal(cur, d, 1);
    var jump := Diagonal(cur, d, 2);
    var s1 := if StepOpen(s.tiles, cur, d, king) then s.(moveMap := s.moveMap[d := target.value]) else s;
    if JumpOpen(s1.tiles, cur, d, player, king) && !InDanger(s1.danger, target.value) {
      var l := Land(s1, target.value, jump.value);
      assert jump.value in l.danger;
      CapturedAfterInherit(l, cur, jump.value);
    }
  }

  lemma ExpandKeepsDanger(s: Search, cur: nat, player: CheckersColor, king: bool)
    requires Wf(s) && IsIndex(cur) && s.danger != map[]
    ensures Expand(s, cur, player, king).danger != map[]
  {
    var s1 := ProcessTile(s, cur, LeftFwd, player, king);
    var s2 := ProcessTile(s1, cur, LeftBack, player, king);
    var s3 := ProcessTile(s2, cur, RightFwd, player, king);
    ProcessTileDanger(s, cur, LeftFwd, player, king);
    ProcessTileDanger(s1, cur, LeftBack, player, king);
    ProcessTileDanger(s2, cur, RightFwd, player, king);
    ProcessTileDanger(s3, cur, RightBack, player, king);
  }

  lemma ExpandFindsJump(s: Search, cur: nat, player: CheckersColor, king: bool)
    requires Wf(s) && IsIndex(cur) && JumpAvailable(s.tiles, cur, player, king)
    ensures Expand(s, cur, player, king).danger != map[]
  {
    var s1 := ProcessTile(s, cur, LeftFwd, player, king);
    var s2 := ProcessTile(s1, cur, LeftBack, player, king);
    var s3 := ProcessTile(s2, cur, RightFwd, player, king);
    if JumpOpen(s.tiles, cur, LeftFwd, player, king) {
      JumpFound(s, s.tiles, cur, LeftFwd, player, king);
    } else if JumpOpen(s.tiles, cur, LeftBack, player, king) {
      JumpFound(s1, s.tiles, cur, LeftBack, player, king);
    } else if JumpOpen(s.tiles, cur, RightFwd, player, king) {
      JumpFound(s2, s.tiles, cur, RightFwd, player, king);
    } else {
      JumpFound(s3, s.tiles, cur, RightBack, player, king);
    }
    ExpandDangerTail(s, cur, player, king);
  }

  /** A jump open on the board the search started from ends the step with a non-empty danger map. */
  lemma JumpFound(s: Search, start: seq<Tile>, cur: nat, d: Dir, player: CheckersColor, king: bool)
    requires Wf(s) && IsIndex(cur) && SameButHighlights(s.tiles, start) && JumpOpen(start, cur, d, player, king)
    ensures ProcessTile(s, cur, d, player, king).danger != map[]
  {
    OpenUnchanged(s.tiles, start, cur, d, player, king);
    ProcessTileDanger(s, cur, d, player, king);
  }

  /** A non-empty danger map after any of the four diagonals survives the rest of the turn. */
  lemma ExpandDangerTail(s: Search, cur: nat, player: CheckersColor, king: bool)
    requires Wf(s) && IsIndex(cur)
    ensures var s1 := ProcessTile(s, cur, LeftFwd, player, king);
      var s2 := ProcessTile(s1, cur, LeftBack, player, king);
      var s3 := ProcessTile(s2, cur, RightFwd, player, king);
      var s4 := ProcessTile(s3, cur, RightBack, player, king);
      && (s1.danger != map[] ==> s2.danger != map[])
      && (s2.danger != map[] ==> s3.danger != map[])
      && (s3.danger != map[] ==> s4.danger != map[])
      && (JumpOpen(s3.tiles, cur, RightBack, player, king) && s3.danger == map[] ==> s4.danger != map[])
      && s4 == Expand(s, cur, player, king)
  {
    var s1 := ProcessTile(s, cur, LeftFwd, player, king);
    var s2 := ProcessTile(s1, cur, LeftBack, player, king);
    var s3 := ProcessTile(s2, cur, RightFwd, player, king);
    ProcessTileDanger(s1, cur, LeftBack, player, king);
    ProcessTileDanger(s2, cur, RightFwd, player, king);
    ProcessTileDanger(s3, cur, RightBack, player, king);
  }

  lemma ExpandWithoutJump(s: Search, cur: nat, player: CheckersColor, king: bool)
    requires Wf(s) && IsIndex(cur) && !JumpAvailable(s.tiles, cur, player, king)
    ensures Expand(s, cur, player, king) == s.(moveMap :=
      StepUpdate(StepUpdate(StepUpdate(StepUpdate(s.moveMap, s.tiles, cur, LeftFwd, king),
        s.tiles, cur, LeftBack, king), s.tiles, cur, RightFwd, king), s.tiles, cur, RightBack, king))
  {
    var s1 := ProcessTile(s, cur, LeftFwd, player, king);
    ProcessTileDanger(s, cur, LeftFwd, player, king);
    var s2 := ProcessTile(s1, cur, LeftBack, player, king);
    ProcessTileDanger(s1, cur, LeftBack, player, king);
    var s3 := ProcessTile(s2, cur, RightFwd, player, king);
    ProcessTileDanger(s2, cur, RightFwd, player, king);
    ProcessTileDanger(s3, cur, RightBack, player, king);
  }

  /** Once a capture is recorded, the search never ends with an empty danger map. */
  lemma {:induction false} ExploreKeepsDanger(s: Search, player: CheckersColor, king: bool)
    requires Wf(s) && s.danger != map[]
    ensures Explore(s, player, king).danger != map[]
    decreases Remaining(s, player)
  {
    if s.queue != [] {
      var popped := s.(queue := s.queue[1..]);
      ExpandKeepsDanger(popped, s.queue[0], player, king);
      ExpandMeasure(popped, s.queue[0], player, king);
      ExploreKeepsDanger(Expand(popped, s.queue[0], player, king), player, king);
    }
  }

  /** The move map after the origin's four diagonals, when none of them offers a jump. */
  function PlainMoveMap(tiles: seq<Tile>, origin: nat, king: bool): map<Dir, nat>
    requires |tiles| == BoardSize && IsIndex(origin)
  {
    StepUpdate(StepUpdate(StepUpdate(StepUpdate(InitialMoveMap, tiles, origin, LeftFwd, king),
      tiles, origin, LeftBack, king), tiles, origin, RightFwd, king), tiles, origin, RightBack, king)
  }

  lemma PlainMoveMapAt(tiles: seq<Tile>, origin: nat, king: bool, d: Dir)
    requires |tiles| == BoardSize && IsIndex(origin)
    ensures d in PlainMoveMap(tiles, origin, king)
    ensures PlainMoveMap(tiles, origin, king)[d]
         == if StepOpen(tiles, origin, d, king) then Diagonal(origin, d, 1).value else InvalidIndex
  {
  }

  /** Without an open jump at the origin, the search expands the origin only and records its plain steps. */
  lemma ExploreWithoutJump(tiles: seq<Tile>, origin: nat, player: CheckersColor, king: bool)
    requires |tiles| == BoardSize && IsIndex(origin) && !JumpAvailable(tiles, origin, player, king)
    ensures Explore(Search(tiles, map[], InitialMoveMap, [origin]), player, king)
         == Search(tiles, map[], PlainMoveMap(tiles, origin, king), [])
  {
    var popped := Search(tiles, map[], InitialMoveMap, []);
    ExpandWithoutJump(popped, origin, player, king);
    var e := Expand(popped, origin, player, king);
    assert e == Search(tiles, map[], PlainMoveMap(tiles, origin, king), []);
    assert Explore(e, player, king) == e;
  }

  /** The tiles the move map offers, for the given order of its entries. */
  function Targets(moveMap: map<Dir, nat>, dirs: seq<Dir>): set<nat>
  {
    set k | 0 <= k < |dirs| && dirs[k] in moveMap && moveMap[dirs[k]] != InvalidIndex :: moveMap[dirs[k]]
  }

  /** The final loop highlights exactly the tiles the move map offers and nothing else. */
  lemma {:induction false} HighlightStepsMarks(tiles: seq<Tile>, moveMap: map<Dir, nat>, dirs: seq<Dir>)
    requires |tiles| == BoardSize && MoveMapOk(moveMap)
    ensures var r := HighlightSteps(tiles, moveMap, dirs);
      forall i | 0 <= i < BoardSize :: r[i].highLighted <==> tiles[i].highLighted || i in Targets(moveMap, dirs)
    decreases |dirs|
  {
    if dirs != [] {
      var d := dirs[0];
      var next := if d in moveMap && moveMap[d] != InvalidIndex
                  then tiles[moveMap[d] := tiles[moveMap[d]].SetHighLighted()] else tiles;
      HighlightStepsMarks(next, moveMap, dirs[1..]);
      forall i | 0 <= i < BoardSize
        ensures i in Targets(moveMap, dirs) <==> (d in moveMap && moveMap[d] == i) || i in Targets(moveMap, dirs[1..])
      {
        if i in Targets(moveMap, dirs) {
          var k :| 0 <= k < |dirs| && dirs[k] in moveMap && moveMap[dirs[k]] != InvalidIndex && moveMap[dirs[k]] == i;
          if k > 0 {
            assert dirs[1..][k - 1] == dirs[k];
          }
        }
        if i in Targets(moveMap, dirs[1..]) {
          var k :| 0 <= k < |dirs[1..]| && dirs[1..][k] in moveMap && moveMap[dirs[1..][k]] != InvalidIndex && moveMap[dirs[1..][k]] == i;
          assert dirs[k + 1] == dirs[1..][k];
        }
        if d in moveMap && moveMap[d] == i {
          assert dirs[0] == d;
        }
      }
    }
  }

  lemma PlainTargets(tiles: seq<Tile>, origin: nat, king: bool)
    requires |tiles| == BoardSize && IsIndex(origin)
    ensures Targets(PlainMoveMap(tiles, origin, king), MoveMapOrder) == PlainSteps(tiles, origin, king)
  {
    var mm := PlainMoveMap(tiles, origin, king);
    forall i | i in Targets(mm, MoveMapOrder) ensures i in PlainSteps(tiles, origin, king) {
      var k :| 0 <= k < 4 && MoveMapOrder[k] in mm && mm[MoveMapOrder[k]] != InvalidIndex && mm[MoveMapOrder[k]] == i;
      PlainMoveMapAt(tiles, origin, king, MoveMapOrder[k]);
    }
    forall i | i in PlainSteps(tiles, origin, king) ensures i in Targets(mm, MoveMapOrder) {
      var d :| d in MoveMapOrder && StepOpen(tiles, origin, d, king) && Diagonal(origin, d, 1).value == i;
      PlainMoveMapAt(tiles, origin, king, d);
      var k :| 0 <= k < 4 && MoveMapOrder[k] == d;
    }
  }

  /** The search leaves the pieces alone, and ends with the danger map of its loop; the tiles are
      those of the loop too unless the danger map is empty. */
  lemma HighLightAllShape(tiles: seq<Tile>, origin: nat, player: CheckersColor, king: bool)
    requires |tiles| == BoardSize && IsIndex(origin)
    ensures var e := Explore(Search(tiles, map[], InitialMoveMap, [origin]), player, king);
      var r := HighLightAll(tiles, map[], origin, player, king);
      && r.danger == e.danger && SameButHighlights(r.tiles, tiles) && SameButHighlights(e.tiles, tiles)
      && (r.danger != map[] ==> r.tiles == e.tiles)
  {
  }

  lemma SameTransitive(a: seq<Tile>, b: seq<Tile>, c: seq<Tile>)
    requires SameButHighlights(a, b) && SameButHighlights(b, c)
    ensures SameButHighlights(a, c)
  {
  }

  lemma JumpGivesCaptures(tiles: seq<Tile>, origin: nat, player: CheckersColor, king: bool)
    requires |tiles| == BoardSize && IsIndex(origin) && JumpAvailable(tiles, origin, player, king)
    ensures Loop(tiles, origin, player, king).danger != map[]
  {
    ExploreFindsJump(Search(tiles, map[], InitialMoveMap, [origin]), player, king);
  }

  /** A jump open from the front of the queue is taken, and its capture is never given up. */
  lemma ExploreFindsJump(s: Search, player: CheckersColor, king: bool)
    requires Wf(s) && s.queue != [] && JumpAvailable(s.tiles, s.queue[0], player, king)
    ensures Explore(s, player, king).danger != map[]
  {
    var popped := s.(queue := s.queue[1..]);
    ExpandFindsJump(popped, s.queue[0], player, king);
    ExploreKeepsDanger(Expand(popped, s.queue[0], player, king), player, king);
  }

  /** A selection ends with captures exactly when a jump is open from the origin. */
  lemma SearchCapturesIffJump(tiles: seq<Tile>, origin: nat, player: CheckersColor, king: bool)
    requires |tiles| == BoardSize && IsIndex(origin)
    ensures HighLightAll(tiles, map[], origin, player, king).danger != map[]
        <==> JumpAvailable(tiles, origin, player, king)
  {
    HighLightAllShape(tiles, origin, player, king);
    if JumpAvailable(tiles, origin, player, king) {
      JumpGivesCaptures(tiles, origin, player, king);
    } else {
      ExploreWithoutJump(tiles, origin, player, king);
    }
  }

  /** The invariant at the end of a search from a clean board. */
  lemma ExploreFromClean(tiles: seq<Tile>, origin: nat, player: CheckersColor, king: bool)
    requires |tiles| == BoardSize && IsIndex(origin) && NoHighlights(tiles)
    ensures SearchInv(Explore(Search(tiles, map[], InitialMoveMap, [origin]), player, king), player)
  {
    var init := Search(tiles, map[], InitialMoveMap, [origin]);
    assert SearchInv(init, player);
    InvExplore(init, player, king);
  }

  /** `r` is the outcome of a search from `tiles` whose loop ended in `e`, and the loop kept its invariant. */
  predicate ResultOf(r: Search, e: Search, tiles: seq<Tile>, player: CheckersColor)
  {
    r.danger == e.danger && SameButHighlights(r.tiles, tiles) && SameButHighlights(e.tiles, tiles)
    && (r.danger != map[] ==> r.tiles == e.tiles)
    && SearchInv(e, player)
  }

  lemma CleanResult(tiles: seq<Tile>, origin: nat, player: CheckersColor, king: bool)
    requires |tiles| == BoardSize && IsIndex(origin) && NoHighlights(tiles)
    ensures ResultOf(HighLightAll(tiles, map[], origin, player, king), Loop(tiles, origin, player, king), tiles, player)
  {
    HighLightAllShape(tiles, origin, player, king);
    ExploreFromClean(tiles, origin, player, king);
  }

  /** From a clean board: no tile is captured twice, every captured tile holds an opponent piece, so
      there are at most as many captures as opponent pieces, and no piece moves. */
  lemma SearchCaptures(tiles: seq<Tile>, origin: nat, player: CheckersColor, king: bool)
    requires |tiles| == BoardSize && IsIndex(origin) && NoHighlights(tiles)
    ensures CaptureFacts(HighLightAll(tiles, map[], origin, player, king), tiles, player)
  {
    CleanResult(tiles, origin, player, king);
    CapturesOfResult(HighLightAll(tiles, map[], origin, player, king), Loop(tiles, origin, player, king), tiles, player);
  }

  /** No tile is captured twice, every captured tile holds an opponent piece, so there are at most as
      many captures as opponent pieces, and no piece, tile rectangle or tile colour has changed. */
  predicate CaptureFacts(r: Search, tiles: seq<Tile>, player: CheckersColor)
  {
    && SameButHighlights(r.tiles, tiles)
    && NoDoubleCapture(r.danger)
    && CapturesOpponents(r.danger, tiles, player)
    && Captured(r.danger) <= Opponents(tiles, player)
    && |Captured(r.danger)| <= |Opponents(tiles, player)|
  }

  lemma CapturesOfResult(r: Search, e: Search, tiles: seq<Tile>, player: CheckersColor)
    requires ResultOf(r, e, tiles, player)
    ensures CaptureFacts(r, tiles, player)
  {
    CapturesWithin(e.danger, e.tiles, tiles, player);
  }

  /** Captures that hold opponent pieces on one board hold them on any board with the same pieces,
      and are among that board's opponent pieces. */
  lemma CapturesWithin(danger: map<nat, seq<nat>>, a: seq<Tile>, b: seq<Tile>, player: CheckersColor)
    requires CapturesOpponents(danger, a, player) && SameButHighlights(a, b)
    ensures CapturesOpponents(danger, b, player)
    ensures Captured(danger) <= Opponents(b, player)
    ensures |Captured(danger)| <= |Opponents(b, player)|
  {
    CapturesUnchanged(danger, a, b, player);
    forall x | x in Captured(danger) ensures x in Opponents(b, player) {
      var k :| k in danger && x in danger[k];
    }
    Cardinality(Captured(danger), Opponents(b, player));
  }

  lemma CapturesUnchanged(danger: map<nat, seq<nat>>, a: seq<Tile>, b: seq<Tile>, player: CheckersColor)
    requires CapturesOpponents(danger, a, player) && SameButHighlights(a, b)
    ensures CapturesOpponents(danger, b, player)
  {
    forall k | k in danger ensures forall x | x in danger[k] :: 0 <= x < |b| && HoldsOpponent(b[x], player) {
      forall x | x in danger[k] ensures 0 <= x < |b| && HoldsOpponent(b[x], player) {
        assert a[x].piece == b[x].piece;
      }
    }
  }

  lemma Cardinality(a: set<nat>, b: set<nat>)
    requires a <= b
    ensures |a| <= |b|
  {
    assert b == a + (b - a);
  }

  /** When captures exist the highlighted tiles are exactly the landing tiles, so no plain step is
      offered; otherwise they are exactly the origin's empty diagonal neighbours in the directions
      open to the piece. */
  predicate HighlightFacts(r: Search, tiles: seq<Tile>, origin: nat, king: bool)
    requires |tiles| == BoardSize && IsIndex(origin)
  {
    |r.tiles| == BoardSize
    && (r.danger != map[] ==> forall i | 0 <= i < BoardSize :: r.tiles[i].highLighted <==> i in r.danger)
    && (r.danger == map[] ==> forall i | 0 <= i < BoardSize :: r.tiles[i].highLighted <==> i in PlainSteps(tiles, origin, king))
  }

  lemma SearchHighlights(tiles: seq<Tile>, origin: nat, player: CheckersColor, king: bool)
    requires |tiles| == BoardSize && IsIndex(origin) && NoHighlights(tiles)
    ensures HighlightFacts(HighLightAll(tiles, map[], origin, player, king), tiles, origin, king)
  {
    var r := HighLightAll(tiles, map[], origin, player, king);
    CleanResult(tiles, origin, player, king);
    SearchCapturesIffJump(tiles, origin, player, king);
    if r.danger != map[] {
      LandingHighlights(r, Loop(tiles, origin, player, king), tiles, origin, player, king);
    } else {
      ExploreWithoutJump(tiles, origin, player, king);
      HighlightStepsMarks(tiles, PlainMoveMap(tiles, origin, king), MoveMapOrder);
      PlainTargets(tiles, origin, king);
    }
  }

  lemma LandingHighlights(r: Search, e: Search, tiles: seq<Tile>, origin: nat, player: CheckersColor, king: bool)
    requires |tiles| == BoardSize && IsIndex(origin) && ResultOf(r, e, tiles, player) && r.danger != map[]
    ensures HighlightFacts(r, tiles, origin, king)
  {
  }

  /** Every tile the search offers from a clean board is empty. */
  lemma SearchLandingsEmpty(tiles: seq<Tile>, origin: nat, player: CheckersColor, king: bool)
    requires |tiles| == BoardSize && IsIndex(origin) && NoHighlights(tiles)
    ensures LandingsFree(HighLightAll(tiles, map[], origin, player, king), tiles)
  {
    SearchHighlights(tiles, origin, player, king);
    CleanResult(tiles, origin, player, king);
    LandingsOfResult(HighLightAll(tiles, map[], origin, player, king), Loop(tiles, origin, player, king), tiles, origin, player, king);
  }

  predicate LandingsFree(r: Search, tiles: seq<Tile>)
    requires |r.tiles| == |tiles| == BoardSize
  {
    forall i | 0 <= i < BoardSize && r.tiles[i].highLighted :: tiles[i].piece.None?
  }

  lemma LandingsOfResult(r: Search, e: Search, tiles: seq<Tile>, origin: nat, player: CheckersColor, king: bool)
    requires |tiles| == BoardSize && IsIndex(origin) && ResultOf(r, e, tiles, player)
    requires HighlightFacts(r, tiles, origin, king)
    ensures LandingsFree(r, tiles)
  {
    forall i | 0 <= i < BoardSize && r.tiles[i].highLighted ensures tiles[i].piece.None? {
      if r.danger != map[] {
        assert i in e.danger;
        assert e.tiles[i].piece == tiles[i].piece;
      } else {
        var d :| d in MoveMapOrder && StepOpen(tiles, origin, d, king) && Diagonal(origin, d, 1).value == i;
      }
    }
  }

  /** Two boards with pieces of the same colours on the same tiles. */
  predicate SameOccupants(a: seq<Tile>, b: seq<Tile>)
  {
    |a| == |b|
    && forall i | 0 <= i < |a| ::
         (a[i].piece.Some? <==> b[i].piece.Some?) && (a[i].piece.Some? ==> a[i].piece.value.color == b[i].piece.value.color)
  }

  /** What the search finds depends on where the pieces of each colour stand, and on nothing else. */
  lemma StepOnSameOccupants(a: seq<Tile>, b: seq<Tile>, origin: nat, d: Dir, player: CheckersColor, king: bool)
    requires |a| == BoardSize && SameOccupants(a, b) && IsIndex(origin)
    ensures StepOpen(a, origin, d, king) == StepOpen(b, origin, d, king)
    ensures JumpOpen(a, origin, d, player, king) == JumpOpen(b, origin, d, player, king)
  {
    var target := Diagonal(origin, d, 1);
    var jump := Diagonal(origin, d, 2);
    if target.Some? {
      assert a[target.value].piece.Some? == b[target.value].piece.Some?;
      assert HoldsOpponent(a[target.value], player) == HoldsOpponent(b[target.value], player);
    }
    if jump.Some? {
      assert a[jump.value].piece.Some? == b[jump.value].piece.Some?;
    }
  }

  lemma OutcomeOnSameOccupants(a: seq<Tile>, b: seq<Tile>, origin: nat, player: CheckersColor, king: bool)
    requires |a| == BoardSize && SameOccupants(a, b) && IsIndex(origin)
    ensures JumpAvailable(a, origin, player, king) == JumpAvailable(b, origin, player, king)
    ensures PlainSteps(a, origin, king) == PlainSteps(b, origin, king)
  {
    StepOnSameOccupants(a, b, origin, LeftFwd, player, king);
    StepOnSameOccupants(a, b, origin, RightFwd, player, king);
    StepOnSameOccupants(a, b, origin, LeftBack, player, king);
    StepOnSameOccupants(a, b, origin, RightBack, player, king);
    assert forall d :: StepOpen(a, origin, d, king) == StepOpen(b, origin, d, king);
  }

  lemma CapturesOnSameOccupants(danger: map<nat, seq<nat>>, a: seq<Tile>, b: seq<Tile>, player: CheckersColor)
    requires CapturesOpponents(danger, a, player) && SameOccupants(a, b)
    ensures CapturesOpponents(danger, b, player)
  {
    forall k | k in danger ensures forall x | x in danger[k] :: 0 <= x < |b| && HoldsOpponent(b[x], player) {
      forall x | x in danger[k] ensures 0 <= x < |b| && HoldsOpponent(b[x], player) {
        assert HoldsOpponent(a[x], player);
      }
    }
  }
}
