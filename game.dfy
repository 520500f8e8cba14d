/** The game (`State`): the board, whose turn it is, the end flag, the two
    learning players, and the training loop that plays games between them
    and feeds each player its reward at the end of every game. */
module Game {

  import opened Options
  import opened Board
  import opened Agent

  /** The rewards `give_reward` feeds to the first and to the second player
      for a result: 1 to the winner and 0 to the loser, and (0.1, 0.5) for
      anything else, a draw included. */
  function RewardPair(result: Option<int>): (r: (real, real))
    ensures 0.0 <= r.0 <= 1.0 && 0.0 <= r.1 <= 1.0
    ensures result == Some(1) ==> r.0 > r.1
    ensures result == Some(-1) ==> r.1 > r.0
    ensures result != Some(1) && result != Some(-1) ==> r.0 < r.1
  {
    if result == Some(1) then (1.0, 0.0)
    else if result == Some(-1) then (0.0, 1.0)
    else (0.1, 0.5)
  }

  /** The two random draws behind one `choose_action` call: the uniform
      draw compared with `exp_rate` and the index drawn among the
      candidates. */
  datatype Draw = Draw(u: real, pick: nat)

  /** What one game of `play` leaves behind: its boards from the empty
      one on, the two players' traces and the result `winner` reported. */
  datatype GameRecord = GameRecord(boards: seq<Key>, t1: seq<Key>, t2: seq<Key>, result: Option<int>)

  /** The random draws of game `i` of `play`, move by move. */
  function Draws(rng: (nat, nat) -> Draw, i: nat): nat -> Draw
  {
    (m: nat) => rng(i, m)
  }

  /** A finished game of `moves` moves: the first player's trace is as
      long as the second's or one longer, and together they hold a key per
      move. */
  predicate WellPlayed(game: GameRecord, moves: nat)
  {
    game.result.Some? && moves == |game.t1| + |game.t2| &&
    (|game.t1| == |game.t2| || |game.t1| == |game.t2| + 1)
  }

  /** One move of `play` by a player with table `values`, exploration rate
      `expRate` and mark `symbol`: the board `before` was undecided, the
      player's `choose_action` on its empty cells picked an empty cell, and
      `after` is `before` with that cell marked. */
  ghost predicate Step(values: map<Key, real>, expRate: real, before: Key, after: Key, symbol: int, draw: Draw)
  {
    |before| == 9 && Judge(before).None? &&
    var choice := Choose(values, expRate, EmptyPositions(before), before, symbol, draw.u, draw.pick);
    choice.Some? && before[Index(choice.value)] == 0 && after == AfterMove(before, choice.value, symbol)
  }

  /** Whether move `m` of a game, counting from 0, is the first player's:
      the first player moves first and the two alternate. */
  predicate FirstMoves(m: nat)
    decreases m
  {
    if m == 0 then true else !FirstMoves(m - 1)
  }

  /** The players alternate. */
  lemma FirstMovesAlternate(m: nat)
    ensures FirstMoves(m + 1) == !FirstMoves(m)
  {
  }

  /** The boards of `boards` after the moves of the first (`first`) or of
      the second player, in order: the keys that player's trace collects. */
  function Trace(boards: seq<Key>, first: bool): seq<Key>
    decreases |boards|
  {
    if |boards| <= 1 then []
    else Trace(boards[..|boards| - 1], first) + (if FirstMoves(|boards| - 2) == first then [boards[|boards| - 1]] else [])
  }

  /** A new board after a move joins the mover's trace and only that. */
  lemma TraceExtend(boards: seq<Key>, k: Key)
    requires boards != []
    ensures Trace(boards + [k], FirstMoves(|boards| - 1)) == Trace(boards, FirstMoves(|boards| - 1)) + [k]
    ensures Trace(boards + [k], !FirstMoves(|boards| - 1)) == Trace(boards, !FirstMoves(|boards| - 1))
  {
    assert (boards + [k])[..|boards|] == boards;
  }

  /** The table of the first (`first`) or the second player after the
      first `n` games of `games`, in order, were fed back into `values`. */
  function Trained(values: map<Key, real>, games: seq<GameRecord>, n: nat, first: bool): map<Key, real>
    requires n <= |games|
  {
    if n == 0 then values
    else
      var g := games[n - 1];
      var before := Trained(values, games, n - 1, first);
      if first then Propagate(before, g.t1, RewardPair(g.result).0)
      else Propagate(before, g.t2, RewardPair(g.result).1)
  }

  /** Training on the first `n` games depends on those games only: more
      games after them change nothing. */
  lemma {:induction false} TrainedPrefix(values: map<Key, real>, games: seq<GameRecord>, more: seq<GameRecord>, n: nat, first: bool)
    requires n <= |games|
    ensures Trained(values, games + more, n, first) == Trained(values, games, n, first)
  {
    if n > 0 {
      TrainedPrefix(values, games, more, n - 1, first);
      assert (games + more)[n - 1] == games[n - 1];
    }
  }

  /** Training keeps every value of the table in [0, 1]. */
  lemma {:induction false} TrainedInUnit(values: map<Key, real>, games: seq<GameRecord>, n: nat, first: bool)
    requires InUnit(values) && n <= |games|
    ensures InUnit(Trained(values, games, n, first))
  {
    if n > 0 {
      var g := games[n - 1];
      TrainedInUnit(values, games, n - 1, first);
      var before := Trained(values, games, n - 1, first);
      if first {
        PropagateInUnit(before, g.t1, RewardPair(g.result).0);
      } else {
        PropagateInUnit(before, g.t2, RewardPair(g.result).1);
      }
    }
  }

  /** Training only adds keys: every key the table held is still held, and
      a key none of the games visited by that player keeps its value. */
  lemma {:induction false} TrainedFrame(values: map<Key, real>, games: seq<GameRecord>, n: nat, first: bool, k: Key)
    requires n <= |games|
    requires forall m :: 0 <= m < n ==> k !in (if first then games[m].t1 else games[m].t2)
    ensures k in Trained(values, games, n, first) <==> k in values
    ensures k in values ==> Trained(values, games, n, first)[k] == values[k]
  {
    if n > 0 {
      var g := games[n - 1];
      TrainedFrame(values, games, n - 1, first, k);
      var before := Trained(values, games, n - 1, first);
      if first {
        PropagateFrame(before, g.t1, RewardPair(g.result).0, k);
      } else {
        PropagateFrame(before, g.t2, RewardPair(g.result).1, k);
      }
    }
  }

  class State {
    var board: array2<int>
    const p1: Player
    const p2: Player
    var isEnd: bool
    var boardHash: Option<Key>
    /** The mark of the player to move: 1 for the first player, -1 for the second. */
    var playerSymbol: int

    ghost predicate Valid()
      reads this`board, this`playerSymbol, board
    {
      board.Length0 == Rows && board.Length1 == Cols &&
      IsBoard(Player.GetHash(board)) &&
      (playerSymbol == 1 || playerSymbol == -1) &&
      p1 != p2
    }

    /** The state before the first move of a game. */
    ghost predicate Initial()
      reads this, board
      requires Valid()
    {
      Player.GetHash(board) == EmptyBoard && playerSymbol == 1 && !isEnd && boardHash == None
    }

    /** `boards` are the boards of a game of `play` so far, from the empty
        board on: each one follows from the one before by a `Step` of the
        player whose turn it was, the first player moving first with mark 1,
        `rng(m)` giving the draws of move `m`, and the two players' tables
        being `v1` and `v2`. */
    ghost predicate Legal(v1: map<Key, real>, v2: map<Key, real>, rng: nat -> Draw, boards: seq<Key>)
      decreases |boards|, 1
    {
      |boards| >= 1 && boards[0] == EmptyBoard &&
      (|boards| > 1 ==> LastMoveLegal(v1, v2, rng, boards))
    }

    /** The boards before the last one are `Legal`, and the last move is a
        `Step` of the player whose turn it was. */
    ghost predicate LastMoveLegal(v1: map<Key, real>, v2: map<Key, real>, rng: nat -> Draw, boards: seq<Key>)
      requires |boards| > 1
      decreases |boards|, 0
    {
      Legal(v1, v2, rng, boards[..|boards| - 1]) &&
      var m := |boards| - 2;
      if FirstMoves(m) then Step(v1, p1.expRate, boards[m], boards[m + 1], 1, rng(m))
      else Step(v2, p2.expRate, boards[m], boards[m + 1], -1, rng(m))
    }

    /** A game stays `Legal` when the player whose turn it is makes a `Step`
        from its last board. */
    lemma LegalExtend(v1: map<Key, real>, v2: map<Key, real>, rng: nat -> Draw, boards: seq<Key>, after: Key)
      requires Legal(v1, v2, rng, boards)
      requires var m := |boards| - 1;
        if FirstMoves(m) then Step(v1, p1.expRate, boards[m], after, 1, rng(m))
        else Step(v2, p2.expRate, boards[m], after, -1, rng(m))
      ensures Legal(v1, v2, rng, boards + [after])
    {
      var next := boards + [after];
      assert next[..|boards|] == boards;
      assert |next| - 2 == |boards| - 1;
      assert next[|boards| - 1] == boards[|boards| - 1] && next[|boards|] == after;
    }

    /** The state of a game of `play` after `moves` moves, `boards` being
        its boards so far: the board is the last of them, the game is
        `Legal`, each trace holds its player's boards, and the turn and the
        trace lengths follow who moves next. */
    ghost predicate InGame(rng: nat -> Draw, moves: nat, boards: seq<Key>)
      reads this, board, p1, p2
    {
      Valid() && p1.Valid() && p2.Valid() &&
      moves + EmptyCount(Player.GetHash(board)) == 9 &&
      |boards| == moves + 1 && boards[moves] == Player.GetHash(board) &&
      Legal(p1.statesValue, p2.statesValue, rng, boards) &&
      p1.states == Trace(boards, true) && p2.states == Trace(boards, false) &&
      moves == |p1.states| + |p2.states| &&
      if FirstMoves(moves) then playerSymbol == 1 && |p1.states| == |p2.states|
      else playerSymbol == -1 && |p1.states| == |p2.states| + 1
    }

    /** `game` is a finished game of `moves` moves that the players, with
        tables `v1` and `v2` and the draws `rng`, play from the empty
        board: its boards are `Legal`, each trace holds its player's boards,
        and the result is what `winner` reports on the last board. */
    ghost predicate Played(v1: map<Key, real>, v2: map<Key, real>, rng: nat -> Draw, moves: nat, game: GameRecord)
    {
      WellPlayed(game, moves) && 1 <= moves <= 9 && |game.boards| == moves + 1 &&
      Legal(v1, v2, rng, game.boards) &&
      game.t1 == Trace(game.boards, true) && game.t2 == Trace(game.boards, false) &&
      |game.boards[moves]| == 9 && game.result == Judge(game.boards[moves])
    }

    /** The first `n` games of `games`, of lengths `lengths`, are the games
        of a training session from the tables `v1` and `v2`, `rng(i, m)`
        giving the draws of move `m` of game `i` (counting from 1): each
        game is `Played` by the tables the games before it left behind. */
    ghost predicate Session(v1: map<Key, real>, v2: map<Key, real>, rng: (nat, nat) -> Draw, lengths: seq<nat>, games: seq<GameRecord>, n: nat)
      requires n <= |lengths| && n <= |games|
    {
      n == 0 ||
      (Session(v1, v2, rng, lengths, games, n - 1) &&
       Played(Trained(v1, games, n - 1, true), Trained(v2, games, n - 1, false), Draws(rng, n), lengths[n - 1], games[n - 1]))
    }

    /** Each game of a session is `Played` by the tables the games before
        it left behind. */
    lemma {:induction false} SessionAt(v1: map<Key, real>, v2: map<Key, real>, rng: (nat, nat) -> Draw, lengths: seq<nat>, games: seq<GameRecord>, n: nat, k: nat)
      requires n <= |lengths| && n <= |games| && k < n
      requires Session(v1, v2, rng, lengths, games, n)
      ensures Played(Trained(v1, games, k, true), Trained(v2, games, k, false), Draws(rng, k + 1), lengths[k], games[k])
    {
      if k < n - 1 {
        SessionAt(v1, v2, rng, lengths, games, n - 1, k);
      }
    }

    /** A session's first `n` games do not depend on the games after them. */
    lemma {:induction false} SessionPrefix(v1: map<Key, real>, v2: map<Key, real>, rng: (nat, nat) -> Draw, lengths: seq<nat>, games: seq<GameRecord>, length: nat, game: GameRecord, n: nat)
      requires n <= |lengths| && n <= |games|
      ensures Session(v1, v2, rng, lengths + [length], games + [game], n) == Session(v1, v2, rng, lengths, games, n)
    {
      if n > 0 {
        SessionPrefix(v1, v2, rng, lengths, games, length, game, n - 1);
        TrainedPrefix(v1, games, [game], n - 1, true);
        TrainedPrefix(v2, games, [game], n - 1, false);
        assert (lengths + [length])[n - 1] == lengths[n - 1] && (games + [game])[n - 1] == games[n - 1];
      }
    }

    /** A game `Played` by the tables a session has left behind extends the
        session, and the tables after it are those tables with that game's
        rewards fed back along its traces. */
    lemma SessionExtend(v1: map<Key, real>, v2: map<Key, real>, rng: (nat, nat) -> Draw, lengths: seq<nat>, games: seq<GameRecord>, length: nat, game: GameRecord)
      requires |lengths| == |games| && Session(v1, v2, rng, lengths, games, |games|)
      requires Played(Trained(v1, games, |games|, true), Trained(v2, games, |games|, false), Draws(rng, |games| + 1), length, game)
      ensures Session(v1, v2, rng, lengths + [length], games + [game], |games| + 1)
      ensures Trained(v1, games + [game], |games| + 1, true) ==
        Propagate(Trained(v1, games, |games|, true), game.t1, RewardPair(game.result).0)
      ensures Trained(v2, games + [game], |games| + 1, false) ==
        Propagate(Trained(v2, games, |games|, false), game.t2, RewardPair(game.result).1)
    {
      SessionPrefix(v1, v2, rng, lengths, games, length, game, |games|);
      TrainedPrefix(v1, games, [game], |games|, true);
      TrainedPrefix(v2, games, [game], |games|, false);
    }

    constructor (p1: Player, p2: Player)
      requires p1 != p2
      ensures Valid() && Initial() && fresh(board)
      ensures this.p1 == p1 && this.p2 == p2
    {
      board := new int[Rows, Cols]((i, j) => 0);
      this.p1 := p1;
      this.p2 := p2;
      isEnd := false;
      boardHash := None;
      playerSymbol := 1;
    }

    /** Computes the key of the current board and caches it. */
    method GetHash() returns (h: Key)
      requires board.Length0 == Rows && board.Length1 == Cols
      modifies this`boardHash
      ensures h == Player.GetHash(board) && boardHash == Some(h)
    {
      boardHash := Some(Player.GetHash(board));
      h := Player.GetHash(board);
    }

    /** The empty positions, each once, in row-major order. */
    function AvailablePositions(): (r: seq<Pos>)
      reads this`board, this`playerSymbol, board
      requires Valid()
      ensures forall n :: 0 <= n < |r| ==> board[r[n].row, r[n].col] == 0
      ensures forall i: Coord, j: Coord {:trigger Pos(i, j)} :: board[i, j] == 0 ==> Pos(i, j) in r
      ensures r == [] <==> Full(Player.GetHash(board))
    {
      EmptyPositionsBoard(board);
      EmptyPositions(Player.GetHash(board))
    }

    /** Writes the mark of the player to move into `position` and passes
        the turn to the other player. */
    method UpdateState(position: Pos)
      requires Valid()
      requires board[position.row, position.col] == 0
      modifies this`playerSymbol, board
      ensures Valid()
      ensures Player.GetHash(board) == AfterMove(old(Player.GetHash(board)), position, old(playerSymbol))
      ensures playerSymbol == -old(playerSymbol)
    {
      ghost var before := Player.GetHash(board);
      board[position.row, position.col] := playerSymbol;
      KeyAfterWrite(before, board, position, playerSymbol);
      playerSymbol := if playerSymbol == 1 then -1 else 1;
    }

    /** Scans the rows, then the columns, then the diagonals for a won
        line, then checks for a full board; records whether the game is
        over. */
    method Winner() returns (result: Option<int>)
      requires Valid()
      modifies this`isEnd
      ensures result == Judge(Player.GetHash(board))
      ensures isEnd == result.Some?
    {
      ghost var c := Player.GetHash(board);
      for i := 0 to Rows
        invariant ScanFrom(c, i) == ScanFrom(c, 0)
      {
        var rowSum := board[i, 0] + board[i, 1] + board[i, 2];
        KeyLineSums(board, i);
        if rowSum == 3 {
          isEnd := true;
          return Some(1);
        }
        if rowSum == -3 {
          isEnd := true;
          return Some(-1);
        }
      }
      for i := 0 to Cols
        invariant ScanFrom(c, Rows + i) == ScanFrom(c, 0)
      {
        var colSum := board[0, i] + board[1, i] + board[2, i];
        KeyLineSums(board, i);
        if colSum == 3 {
          isEnd := true;
          return Some(1);
        }
        if colSum == -3 {
          isEnd := true;
          return Some(-1);
        }
      }
      var diagSum1 := board[0, 0] + board[1, 1] + board[2, 2];
      var diagSum2 := board[0, 2] + board[1, 1] + board[2, 0];
      var diagSum := Max(Abs(diagSum1), Abs(diagSum2));
      KeyDiagonalSums(board);
      assert ScanFrom(c, 0).None?;
      assert diagSum1 == LineSum(c, Diagonal) && diagSum2 == LineSum(c, AntiDiagonal);
      if diagSum == 3 {
        isEnd := true;
        if diagSum1 == 3 || diagSum2 == 3 {
          return Some(1);
        } else {
          return Some(-1);
        }
      }
      if |AvailablePositions()| == 0 {
        isEnd := true;
        return Some(0);
      }
      isEnd := false;
      return None;
    }

    /** Judges the board and feeds each player the reward for the result. */
    method GiveReward()
      requires Valid()
      modifies this`isEnd, p1`statesValue, p2`statesValue
      ensures isEnd == Judge(Player.GetHash(board)).Some?
      ensures p1.statesValue == Propagate(old(p1.statesValue), p1.states, RewardPair(Judge(Player.GetHash(board))).0)
      ensures p2.statesValue == Propagate(old(p2.statesValue), p2.states, RewardPair(Judge(Player.GetHash(board))).1)
      ensures old(p1.Valid()) ==> p1.Valid()
      ensures old(p2.Valid()) ==> p2.Valid()
    {
      var result := Winner();
      if result == Some(1) {
        p1.FeedReward(1.0);
        p2.FeedReward(0.0);
      } else if result == Some(-1) {
        p1.FeedReward(0.0);
        p2.FeedReward(1.0);
      } else {
        p1.FeedReward(0.1);
        p2.FeedReward(0.5);
      }
    }

    /** Clears the board for the next game. */
    method Reset()
      requires Valid()
      modifies this
      ensures Valid() && Initial() && fresh(board)
    {
      board := new int[Rows, Cols]((i, j) => 0);
      boardHash := None;
      isEnd := false;
      playerSymbol := 1;
    }

    /** The position the player to move chooses on the current board, a
        board that is not full: an available position, and the one the
        player's `Choose` gives for these draws. */
    method ChooseMove(player: Player, draw: Draw) returns (position: Pos)
      requires Valid() && player.Valid()
      requires !Full(Player.GetHash(board))
      ensures position in AvailablePositions() && board[position.row, position.col] == 0
      ensures Some(position) ==
        Choose(player.statesValue, player.expRate, AvailablePositions(), Player.GetHash(board), playerSymbol, draw.u, draw.pick)
    {
      var positions := AvailablePositions();
      // the board is not full, so there is a position to choose from
      assert positions != [];
      var action := player.ChooseAction(positions, board, playerSymbol, draw.u, draw.pick);
      ChooseSpec(player.statesValue, player.expRate, positions, Player.GetHash(board), playerSymbol, draw.u, draw.pick);
      position := action.value;
    }

    /** The first half of a turn of `play`: the player to move chooses
        among the available positions and the move is applied. */
    method Move(player: Player, draw: Draw) returns (position: Pos)
      requires Valid() && player.Valid() && (player == p1 || player == p2)
      requires !Full(Player.GetHash(board))
      modifies this`playerSymbol, board
      ensures Valid()
      ensures playerSymbol == -old(playerSymbol)
      ensures position in old(AvailablePositions())
      ensures Some(position) ==
        Choose(player.statesValue, player.expRate, old(AvailablePositions()), old(Player.GetHash(board)), old(playerSymbol), draw.u, draw.pick)
      ensures Player.GetHash(board) == AfterMove(old(Player.GetHash(board)), position, old(playerSymbol))
      ensures EmptyCount(Player.GetHash(board)) == old(EmptyCount(Player.GetHash(board))) - 1
    {
      position := ChooseMove(player, draw);
      EmptyCountAfterMove(Player.GetHash(board), position, playerSymbol);
      UpdateState(position);
    }

    /** One turn of `play`: the move of `Move`, then the new board's key is
        appended to the trace of the player who moved. */
    method TakeTurn(player: Player, draw: Draw) returns (position: Pos)
      requires Valid() && player.Valid() && (player == p1 || player == p2)
      requires !Full(Player.GetHash(board))
      modifies this`playerSymbol, this`boardHash, board, player`states
      ensures Valid() && player.Valid()
      ensures playerSymbol == -old(playerSymbol)
      ensures old(board[position.row, position.col]) == 0
      ensures Some(position) ==
        Choose(player.statesValue, player.expRate, old(AvailablePositions()), old(Player.GetHash(board)), old(playerSymbol), draw.u, draw.pick)
      ensures Player.GetHash(board) == AfterMove(old(Player.GetHash(board)), position, old(playerSymbol))
      ensures boardHash == Some(Player.GetHash(board))
      ensures player.states == old(player.states) + [Player.GetHash(board)]
      ensures EmptyCount(Player.GetHash(board)) == old(EmptyCount(Player.GetHash(board))) - 1
    {
      position := Move(player, draw);
      var stateKey := GetHash();
      player.AddState(stateKey);
    }

    /** A turn of `play` followed by the `winner` check, on a board that
        is not decided yet. */
    method Turn(player: Player, draw: Draw) returns (win: Option<int>)
      requires Valid() && player.Valid() && (player == p1 || player == p2)
      requires Judge(Player.GetHash(board)).None?
      modifies this`playerSymbol, this`boardHash, this`isEnd, board, player`states
      ensures Valid() && player.Valid()
      ensures playerSymbol == -old(playerSymbol)
      ensures player.states == old(player.states) + [Player.GetHash(board)]
      ensures EmptyCount(Player.GetHash(board)) == old(EmptyCount(Player.GetHash(board))) - 1
      ensures Step(player.statesValue, player.expRate, old(Player.GetHash(board)), Player.GetHash(board), old(playerSymbol), draw)
      ensures boardHash == Some(Player.GetHash(board))
      ensures win == Judge(Player.GetHash(board)) && isEnd == win.Some?
    {
      UndecidedHasEmpty(Player.GetHash(board));
      var position := TakeTurn(player, draw);
      win := Winner();
    }

    /** A `Turn` after `moves` moves of a game: the new board extends
        `boards` and the game stays `InGame`. */
    method Advance(player: Player, draw: Draw, ghost rng: nat -> Draw, ghost moves: nat, ghost boards: seq<Key>) returns (win: Option<int>, ghost next: seq<Key>)
      requires InGame(rng, moves, boards) && Judge(Player.GetHash(board)).None?
      requires draw == rng(moves) && player == (if FirstMoves(moves) then p1 else p2)
      modifies this`playerSymbol, this`boardHash, this`isEnd, board, player`states
      ensures InGame(rng, moves + 1, next) && next == boards + [Player.GetHash(board)]
      ensures boardHash == Some(Player.GetHash(board))
      ensures win == Judge(Player.GetHash(board)) && isEnd == win.Some?
    {
      win := Turn(player, draw);
      LegalExtend(p1.statesValue, p2.statesValue, rng, boards, Player.GetHash(board));
      TraceExtend(boards, Player.GetHash(board));
      next := boards + [Player.GetHash(board)];
    }

    /** The end of a game of `play`: each player is fed its reward, both
        traces are cleared and the board is set up for a new game. */
    method EndGame()
      requires Valid() && p1.Valid() && p2.Valid()
      modifies this, p1, p2
      ensures Valid() && Initial() && fresh(board)
      ensures p1.Valid() && p2.Valid() && p1.states == [] && p2.states == []
      ensures p1.statesValue ==
        Propagate(old(p1.statesValue), old(p1.states), RewardPair(old(Judge(Player.GetHash(board)))).0)
      ensures p2.statesValue ==
        Propagate(old(p2.statesValue), old(p2.states), RewardPair(old(Judge(Player.GetHash(board)))).1)
    {
      GiveReward();
      p1.Reset();
      p2.Reset();
      Reset();
    }

    /** The second half of a pass of the game loop of `play`, after the
        first player's move: `win` is the result of its `winner` check, and
        when the game is not over the second player moves. */
    method SecondTurn(rng: nat -> Draw, moves: nat, ghost boards: seq<Key>, win: Option<int>) returns (win': Option<int>, moves': nat, ghost boards': seq<Key>)
      requires InGame(rng, moves, boards) && !FirstMoves(moves)
      requires win == Judge(Player.GetHash(board)) && isEnd == win.Some?
      requires boardHash == Some(Player.GetHash(board))
      modifies this`playerSymbol, this`boardHash, this`isEnd, board, p2`states
      ensures InGame(rng, moves', boards') && moves' >= moves
      ensures boardHash == Some(Player.GetHash(board))
      ensures win' == Judge(Player.GetHash(board)) && isEnd == win'.Some?
      ensures !isEnd ==> FirstMoves(moves')
    {
      win', moves', boards' := win, moves, boards;
      if win.None? {
        FirstMovesAlternate(moves);
        win', boards' := Advance(p2, rng(moves), rng, moves, boards);
        moves' := moves + 1;
      }
    }

    /** One pass of the game loop of `play` on an undecided board: the
        first player's turn and, when that does not end the game, the
        second player's. */
    method Round(rng: nat -> Draw, moves: nat, ghost boards: seq<Key>) returns (win: Option<int>, moves': nat, ghost boards': seq<Key>)
      requires InGame(rng, moves, boards) && FirstMoves(moves) && Judge(Player.GetHash(board)).None?
      modifies this`playerSymbol, this`boardHash, this`isEnd, board, p1`states, p2`states
      ensures InGame(rng, moves', boards') && moves' > moves
      ensures boardHash == Some(Player.GetHash(board))
      ensures win == Judge(Player.GetHash(board)) && isEnd == win.Some?
      ensures !isEnd ==> FirstMoves(moves')
    {
      // the first player
      win, boards' := Advance(p1, rng(moves), rng, moves, boards);
      FirstMovesAlternate(moves);
      // the second player, unless the game is over
      win, moves', boards' := SecondTurn(rng, moves + 1, boards', win);
    }

    /** One game of `play`, `rng(m)` giving the random draws of move `m`:
        the players move in turn until `winner` reports a result, which
        takes at least one and at most nine moves. The record of the game
        (its boards, both traces and its result) is returned as a ghost,
        since the traces are cleared before the method returns: the game is
        `Played` by the tables the players started with, and each player's
        table is then its old table with its reward fed back along its
        trace. */
    method PlayGame(rng: nat -> Draw) returns (moves: nat, ghost game: GameRecord)
      requires Valid() && Initial()
      requires p1.Valid() && p2.Valid() && p1.states == [] && p2.states == []
      modifies this, board, p1, p2
      ensures Valid() && Initial() && fresh(board)
      ensures p1.Valid() && p2.Valid() && p1.states == [] && p2.states == []
      ensures Played(old(p1.statesValue), old(p2.statesValue), rng, moves, game)
      ensures p1.statesValue == Propagate(old(p1.statesValue), game.t1, RewardPair(game.result).0)
      ensures p2.statesValue == Propagate(old(p2.statesValue), game.t2, RewardPair(game.result).1)
    {
      EmptyBoardUndecided();
      moves := 0;
      ghost var boards := [Player.GetHash(board)];
      var win: Option<int> := None;
      while !isEnd
        invariant InGame(rng, moves, boards)
        invariant board == old(board)
        invariant p1.statesValue == old(p1.statesValue) && p2.statesValue == old(p2.statesValue)
        invariant win == Judge(Player.GetHash(board)) && isEnd == win.Some?
        invariant !isEnd ==> FirstMoves(moves)
        invariant isEnd ==> 0 < moves
        decreases EmptyCount(Player.GetHash(board))
      {
        win, moves, boards := Round(rng, moves, boards);
      }
      // the game is over
      assert |boards[moves]| == 9;
      game := GameRecord(boards, p1.states, p2.states, win);
      EndGame();
    }

    /** Plays `rounds` training games, `rng(i, m)` giving the random draws
        of move `m` of game `i`. After each game both traces are cleared
        and the board, the turn and the end flag are back to a new game's;
        game `n` of the records (counting from 0) is `Played` by the tables
        the earlier games left behind, with the draws of iteration `n + 1`,
        and the tables are the old ones trained on the record of every
        game. */
    method Play(rng: (nat, nat) -> Draw, rounds: nat := 100) returns (gameLengths: seq<nat>, ghost games: seq<GameRecord>)
      requires Valid() && Initial()
      requires p1.Valid() && p2.Valid() && p1.states == [] && p2.states == []
      modifies this, board, p1, p2
      ensures Valid() && Initial()
      ensures p1.Valid() && p2.Valid() && p1.states == [] && p2.states == []
      ensures |gameLengths| == rounds && |games| == rounds
      ensures Session(old(p1.statesValue), old(p2.statesValue), rng, gameLengths, games, rounds)
      ensures p1.statesValue == Trained(old(p1.statesValue), games, rounds, true)
      ensures p2.statesValue == Trained(old(p2.statesValue), games, rounds, false)
    {
      gameLengths, games := [], [];
      for i: nat := 1 to rounds + 1
        invariant Valid() && Initial()
        invariant p1.Valid() && p2.Valid() && p1.states == [] && p2.states == []
        invariant board == old(board) || fresh(board)
        invariant |gameLengths| == i - 1 && |games| == i - 1
        invariant Session(old(p1.statesValue), old(p2.statesValue), rng, gameLengths, games, i - 1)
        invariant p1.statesValue == Trained(old(p1.statesValue), games, i - 1, true)
        invariant p2.statesValue == Trained(old(p2.statesValue), games, i - 1, false)
      {
        var moves, game := PlayGame(Draws(rng, i));
        SessionExtend(old(p1.statesValue), old(p2.statesValue), rng, gameLengths, games, moves, game);
        gameLengths, games := gameLengths + [moves], games + [game];
      }
    }
  }

}
