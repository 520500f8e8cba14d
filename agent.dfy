/** The learning agent (`Player`): a value table from board keys to value
    estimates, the trace of keys it visited in the current game, the
    epsilon-greedy action choice and the backward value update fed at the
    end of a game. */
module Agent {

  import opened Options
  import opened Board

  /** A board key: the nine cells of a board in row-major order. */
  type Key = seq<int>

  /** `lr`, fixed when the player is created. */
  const LearningRate: real := 0.2
  /** `decay_gamma`, fixed when the player is created. */
  const DecayGamma: real := 0.9
  /** The default `exp_rate`. */
  const DefaultExpRate: real := 0.3

  /** The value the table holds for `k`, with 0 for a key it does not hold. */
  function Lookup(values: map<Key, real>, k: Key): (v: real)
    ensures k !in values ==> v == 0.0
    ensures InUnit(values) ==> 0.0 <= v <= 1.0
  {
    if k in values then values[k] else 0.0
  }

  /** Every value of the table lies in [0, 1]. */
  predicate InUnit(values: map<Key, real>)
  {
    forall k :: k in values ==> 0.0 <= values[k] <= 1.0
  }

  /** One step of the update `v += lr * (gamma * r - v)`: the new value is
      the old one moved a fifth of the way toward the target `gamma * r`, so
      its distance to the target shrinks by the factor 1 - lr. */
  function Update(v: real, reward: real): (nv: real)
    ensures nv - DecayGamma * reward == (1.0 - LearningRate) * (v - DecayGamma * reward)
    ensures 0.0 <= v <= 1.0 && 0.0 <= reward <= 1.0 ==> 0.0 <= nv <= 1.0
  {
    v + LearningRate * (DecayGamma * reward - v)
  }

  /** The table after `feed_reward(reward)` with `trace`: the keys are
      visited from the last to the first, each missing key starts at 0, and
      the value just written is the reward carried to the key before it. */
  function Propagate(values: map<Key, real>, trace: seq<Key>, reward: real): map<Key, real>
    decreases |trace|
  {
    if trace == [] then values
    else
      var st := trace[|trace| - 1];
      var v := Update(Lookup(values, st), reward);
      Propagate(values[st := v], trace[..|trace| - 1], v)
  }

  /** Feeding a reward creates entries exactly for the keys of the trace and
      leaves every key outside the trace as it was. */
  lemma {:induction false} PropagateFrame(values: map<Key, real>, trace: seq<Key>, reward: real, k: Key)
    ensures k in Propagate(values, trace, reward) <==> k in values || k in trace
    ensures k !in trace && k in values ==> Propagate(values, trace, reward)[k] == values[k]
    decreases |trace|
  {
    if trace != [] {
      var st := trace[|trace| - 1];
      var v := Update(Lookup(values, st), reward);
      PropagateFrame(values[st := v], trace[..|trace| - 1], v, k);
      assert k in trace <==> k == st || k in trace[..|trace| - 1] by {
        assert trace == trace[..|trace| - 1] + [st];
      }
    }
  }

  /** Rewards in [0, 1] keep every value of the table in [0, 1]. */
  lemma {:induction false} PropagateInUnit(values: map<Key, real>, trace: seq<Key>, reward: real)
    requires InUnit(values) && 0.0 <= reward <= 1.0
    ensures InUnit(Propagate(values, trace, reward))
    decreases |trace|
  {
    if trace != [] {
      var st := trace[|trace| - 1];
      var v := Update(Lookup(values, st), reward);
      PropagateInUnit(values[st := v], trace[..|trace| - 1], v);
    }
  }

  /** A single fresh state rewarded with 1 is worth 0.2 * 0.9 * 1 = 0.18;
      with two fresh states the earlier one then receives 0.2 * 0.9 * 0.18. */
  lemma FeedRewardExamples(a: Key, b: Key)
    requires a != b
    ensures Propagate(map[], [a], 1.0) == map[a := 0.18]
    ensures Propagate(map[], [a, b], 1.0) == map[b := 0.18, a := 0.0324]
  {
    assert [a, b][..1] == [a];
    assert Propagate(map[], [a, b], 1.0) == Propagate(map[b := 0.18], [a], 0.18);
  }

  /** The value the table `values` gives the board `key` after `symbol` is
      placed at `p`. */
  function Score(values: map<Key, real>, key: Key, p: Pos, symbol: int): real
    requires |key| == 9
  {
    Lookup(values, AfterMove(key, p, symbol))
  }

  /** `p` is the candidate at some index `n` of `positions`, no candidate
      scores higher and none after `n` scores as high: the last of the
      highest-scoring candidates. */
  ghost predicate IsLastMax(values: map<Key, real>, positions: seq<Pos>, key: Key, symbol: int, p: Pos)
    requires |key| == 9
  {
    exists n :: 0 <= n < |positions| && positions[n] == p &&
      (forall m :: 0 <= m < |positions| ==> Score(values, key, positions[m], symbol) <= Score(values, key, positions[n], symbol)) &&
      (forall m :: n < m < |positions| ==> Score(values, key, positions[m], symbol) < Score(values, key, positions[n], symbol))
  }

  /** The action and the running maximum after the greedy loop has seen
      `positions`: starting from no action and the sentinel -999, each
      candidate whose score is at least the running maximum replaces both. */
  function GreedyScan(values: map<Key, real>, positions: seq<Pos>, key: Key, symbol: int): (Option<Pos>, real)
    requires |key| == 9
    decreases |positions|
  {
    if positions == [] then (None, -999.0)
    else
      var before := GreedyScan(values, positions[..|positions| - 1], key, symbol);
      var p := positions[|positions| - 1];
      if Score(values, key, p, symbol) >= before.1 then (Some(p), Score(values, key, p, symbol)) else before
  }

  /** The greedy scan ends on the candidate at index `n`, whose score is
      the running maximum: no candidate scores higher and none after `n`
      scores as high. It ends on no candidate only when every score is
      below the sentinel. */
  lemma {:induction false} GreedyScanLast(values: map<Key, real>, positions: seq<Pos>, key: Key, symbol: int) returns (n: nat)
    requires |key| == 9
    ensures var r := GreedyScan(values, positions, key, symbol);
      r.0.None? ==> r.1 == -999.0 && forall m :: 0 <= m < |positions| ==> Score(values, key, positions[m], symbol) < -999.0
    ensures var r := GreedyScan(values, positions, key, symbol);
      r.0.Some? ==>
        n < |positions| && positions[n] == r.0.value &&
        r.1 == Score(values, key, positions[n], symbol) && -999.0 <= r.1 &&
        (forall m :: 0 <= m < |positions| ==> Score(values, key, positions[m], symbol) <= r.1) &&
        (forall m :: n < m < |positions| ==> Score(values, key, positions[m], symbol) < r.1)
    decreases |positions|
  {
    if positions == [] {
      return 0;
    }
    var init := positions[..|positions| - 1];
    var last := |positions| - 1;
    n := GreedyScanLast(values, init, key, symbol);
    var before := GreedyScan(values, init, key, symbol);
    assert forall m :: 0 <= m < last ==> positions[m] == init[m];
    if Score(values, key, positions[last], symbol) >= before.1 {
      n := last;
    }
  }

  /** The move a player with table `values` and exploration rate `expRate`
      makes among `positions` on the board `key`: when the uniform draw `u`
      is at most `expRate` it explores and takes the candidate that the
      random index `pick` selects, otherwise it takes the result of the
      greedy scan. `None` is the case where Python fails: no candidates, or
      every score below the -999 sentinel. */
  function Choose(values: map<Key, real>, expRate: real, positions: seq<Pos>, key: Key, symbol: int, u: real, pick: nat): Option<Pos>
    requires |key| == 9
  {
    if u <= expRate then
      if positions == [] then None else Some(positions[pick % |positions|])
    else
      GreedyScan(values, positions, key, symbol).0
  }

  /** What the choice promises: a candidate; one whenever there are
      candidates and the table's values lie in [0, 1]; the drawn candidate
      when exploring; the last highest-scoring candidate otherwise. */
  lemma ChooseSpec(values: map<Key, real>, expRate: real, positions: seq<Pos>, key: Key, symbol: int, u: real, pick: nat)
    requires |key| == 9
    ensures var a := Choose(values, expRate, positions, key, symbol, u, pick);
      (a.Some? ==> a.value in positions) &&
      (InUnit(values) && positions != [] ==> a.Some?) &&
      (u <= expRate && positions != [] ==> a == Some(positions[pick % |positions|])) &&
      (expRate < u ==>
        (a.None? <==> forall m :: 0 <= m < |positions| ==> Score(values, key, positions[m], symbol) < -999.0)) &&
      (expRate < u && a.Some? ==> IsLastMax(values, positions, key, symbol, a.value))
  {
    var n := GreedyScanLast(values, positions, key, symbol);
    if InUnit(values) && positions != [] {
      assert Score(values, key, positions[0], symbol) >= 0.0;
    }
  }

  class Player {
    const name: string
    const expRate: real
    /** The trace of keys visited in the current game. */
    var states: seq<Key>
    /** The value table. */
    var statesValue: map<Key, real>

    /** The table's values stay within [0, 1], the range of the rewards. */
    ghost predicate Valid()
      reads this`statesValue
    {
      InUnit(statesValue)
    }

    constructor (name: string, expRate: real := DefaultExpRate)
      ensures Valid()
      ensures this.name == name && this.expRate == expRate
      ensures states == [] && statesValue == map[]
    {
      this.name := name;
      this.expRate := expRate;
      states := [];
      statesValue := map[];
    }

    /** The key of a board: its cells flattened row by row. */
    static function GetHash(board: array2<int>): (h: Key)
      reads board
      requires board.Length0 == Rows && board.Length1 == Cols
      ensures |h| == 9
      ensures forall i, j :: 0 <= i < 3 && 0 <= j < 3 ==> h[3 * i + j] == board[i, j]
    {
      [board[0, 0], board[0, 1], board[0, 2],
       board[1, 0], board[1, 1], board[1, 2],
       board[2, 0], board[2, 1], board[2, 2]]
    }

    /** The move chosen among `positions` on `currentBoard`, scoring each
        candidate on a copy of the board. */
    method ChooseAction(positions: seq<Pos>, currentBoard: array2<int>, symbol: int, u: real, pick: nat)
      returns (action: Option<Pos>)
      requires currentBoard.Length0 == Rows && currentBoard.Length1 == Cols
      ensures action == Choose(statesValue, expRate, positions, GetHash(currentBoard), symbol, u, pick)
    {
      if u <= expRate {
        if positions == [] {
          action := None;
        } else {
          action := Some(positions[pick % |positions|]);
        }
      } else {
        ghost var key := GetHash(currentBoard);
        var valueMax: real := -999.0;
        action := None;
        for n := 0 to |positions|
          invariant (action, valueMax) == GreedyScan(statesValue, positions[..n], key, symbol)
        {
          var p := positions[n];
          var nextBoard := new int[Rows, Cols]((i, j) requires 0 <= i < 3 && 0 <= j < 3 reads currentBoard => currentBoard[i, j]);
          nextBoard[p.row, p.col] := symbol;
          var nextBoardHash := GetHash(nextBoard);
          KeyAfterWrite(key, nextBoard, p, symbol);
          var value := if nextBoardHash in statesValue then statesValue[nextBoardHash] else 0.0;
          assert positions[..n + 1][..n] == positions[..n];
          if value >= valueMax {
            valueMax := value;
            action := Some(p);
          }
        }
        assert positions[..|positions|] == positions;
      }
    }

    /** Appends a key to the trace. */
    method AddState(state: Key)
      modifies this`states
      ensures states == old(states) + [state]
    {
      states := states + [state];
    }

    /** The backward update at the end of a game: walks the trace from its
        last key to its first, updating each key's value and carrying the
        new value back as the reward of the key before it. */
    method FeedReward(reward: real)
      modifies this`statesValue
      ensures statesValue == Propagate(old(statesValue), states, reward)
      ensures old(Valid()) && 0.0 <= reward <= 1.0 ==> Valid()
    {
      var i := |states|;
      var r := reward;
      assert states[..i] == states;
      while i > 0
        invariant 0 <= i <= |states|
        invariant Propagate(statesValue, states[..i], r) == Propagate(old(statesValue), states, reward)
      {
        i := i - 1;
        var st := states[i];
        ghost var before, carried := statesValue, r;
        if st !in statesValue {
          statesValue := statesValue[st := 0.0];
        }
        statesValue := statesValue[st := statesValue[st] + LearningRate * (DecayGamma * r - statesValue[st])];
        r := statesValue[st];
        assert statesValue == before[st := Update(Lookup(before, st), carried)];
        assert states[..i + 1][..i] == states[..i];
      }
      assert states[..0] == [];
      if old(Valid()) && 0.0 <= reward <= 1.0 {
        PropagateInUnit(old(statesValue), states, reward);
      }
    }

    /** Clears the trace. */
    method Reset()
      modifies this`states
      ensures states == []
    {
      states := [];
    }
  }

  /** Writing `symbol` at `p` of a board whose other cells are those of
      `before` gives the key `before` with that one cell changed. */
  lemma KeyAfterWrite(before: Key, after: array2<int>, p: Pos, symbol: int)
    requires |before| == 9
    requires after.Length0 == Rows && after.Length1 == Cols
    requires after[p.row, p.col] == symbol
    requires forall i, j :: 0 <= i < 3 && 0 <= j < 3 && (i != p.row || j != p.col) ==> after[i, j] == before[3 * i + j]
    ensures Player.GetHash(after) == AfterMove(before, p, symbol)
  {
    var h := Player.GetHash(after);
    forall k | 0 <= k < 9
      ensures h[k] == AfterMove(before, p, symbol)[k]
    {
      var q := PosAt(k);
      assert h[3 * q.row + q.col] == after[q.row, q.col];
    }
  }

  /** The empty positions of a board's key are the positions of the board
      that hold 0. */
  lemma EmptyPositionsBoard(board: array2<int>)
    requires board.Length0 == Rows && board.Length1 == Cols
    ensures var r := EmptyPositions(Player.GetHash(board));
      (forall n :: 0 <= n < |r| ==> board[r[n].row, r[n].col] == 0) &&
      (forall i: Coord, j: Coord {:trigger Pos(i, j)} :: board[i, j] == 0 ==> Pos(i, j) in r)
  {
    var c := Player.GetHash(board);
    var r := EmptyPositions(c);
    forall n | 0 <= n < |r|
      ensures board[r[n].row, r[n].col] == 0
    {
      assert c[3 * r[n].row + r[n].col] == board[r[n].row, r[n].col];
    }
    forall i: Coord, j: Coord | board[i, j] == 0
      ensures Pos(i, j) in r
    {
      assert c[3 * i + j] == 0;
      assert PosAt(3 * i + j) == Pos(i, j);
    }
  }

  /** The sums `winner` takes over row `i` and column `i` of a board are
      the sums of the corresponding lines of its key. */
  lemma KeyLineSums(board: array2<int>, i: Coord)
    requires board.Length0 == Rows && board.Length1 == Cols
    ensures board[i, 0] + board[i, 1] + board[i, 2] == LineSum(Player.GetHash(board), ScanLine(i))
    ensures board[0, i] + board[1, i] + board[2, i] == LineSum(Player.GetHash(board), ScanLine(Rows + i))
  {
  }

  /** The two diagonal sums `winner` takes are the sums of the diagonals
      of the board's key. */
  lemma KeyDiagonalSums(board: array2<int>)
    requires board.Length0 == Rows && board.Length1 == Cols
    ensures board[0, 0] + board[1, 1] + board[2, 2] == LineSum(Player.GetHash(board), Diagonal)
    ensures board[0, 2] + board[1, 1] + board[2, 0] == LineSum(Player.GetHash(board), AntiDiagonal)
  {
  }

  /** Two boards have the same key exactly when they hold the same cells. */
  lemma KeyInjective(b1: array2<int>, b2: array2<int>)
    requires b1.Length0 == Rows && b1.Length1 == Cols
    requires b2.Length0 == Rows && b2.Length1 == Cols
    ensures Player.GetHash(b1) == Player.GetHash(b2) <==>
      forall i, j :: 0 <= i < 3 && 0 <= j < 3 ==> b1[i, j] == b2[i, j]
  {
  }

}
