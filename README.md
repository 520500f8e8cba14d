# Tic-tac-toe self-play learner, modelled in Dafny

This project models the learning core of `tic_tac_toe.py`. Two tabular
value-learning agents (`Player`) play tic-tac-toe against each other on a
3x3 board (`State`). At the end of every game each agent is fed a reward,
and it propagates that reward backwards through the board states it
visited.

The project is split into four modules:

- `Options` (options.dfy): `Option<T>`, the model of Python's `None` next to a value.
- `Board` (board.dfy): the pure rules on a board key. A key is the nine cells
  in row-major order, each 0 (empty), 1 (first player) or -1 (second player).
  The module covers the empty positions in row-major order, the eight lines,
  and `Judge`. `Judge` is the outcome that `winner` computes, written as a
  function. It comes with the lemmas that say what that outcome means.
- `Agent` (agent.dfy): the `Player` class with its trace `states` and its
  value table `statesValue`. The choice `Choose` and its greedy part take
  the table as a value, so a game can be described by the tables alone.
  The module holds:
  - the board key `GetHash`;
  - the epsilon-greedy `ChooseAction`, proved equal to the function `Choose`,
    whose greedy part `GreedyScan` is the running maximum of the loop;
  - `AddState`, `FeedReward` and `Reset`;
  - `Propagate`, the specification of the backward value update, with its lemmas.
- `Game` (game.dfy): the `State` class. Its fields are the board as an
  `array2<int>` updated in place, the two players, `isEnd`, `boardHash` and
  `playerSymbol`. It holds:
  - `GetHash`, `AvailablePositions`, `UpdateState`, `Winner`, `GiveReward` and `Reset`;
  - the training loop `Play`. `Play` is split into the choice of a move
    (`ChooseMove`), one move (`Move`, `TakeTurn`), a move followed by the
    `winner` check (`Turn`), a turn that keeps track of the game so far
    (`Advance`), one pass of the game loop (`Round`, whose second half is
    `SecondTurn`), the end of a game (`EndGame`) and one game
    (`PlayGame`).
  - the record of the games. Each game is recorded as a ghost `GameRecord`
    (its boards, both traces and the result). `Step` says that one board
    follows from the one before by the mover's `Choose`. `Legal` says that
    a sequence of boards is a game of alternating `Step`s from the empty
    board. `Played` says that a record is a finished legal game whose
    traces and result follow from its boards. `Trained` folds the backward
    update over the records of the first `n` games. `Session` says that
    every game was `Played` by the tables the games before it left behind.

Randomness is an input of the model:

- `ChooseAction` receives the uniform draw `u`, which it compares with
  `expRate`, and a raw index `pick`. The explored candidate is
  `positions[pick % |positions|]`.
- `Play` receives a function that gives the two draws of each move of each game.

Values are exact `real`s. The learning rate is 0.2 and the discount is 0.9.

The greedy choice follows the code's `>=` comparison, so the last of
several equal maxima wins. Each candidate is scored on a fresh copy of the
board, and `ChooseAction` modifies nothing.

## Model

| member | source | states |
|---|---|---|
| Game.State.constructor | tic_tac_toe.py:10-17 | a new state has an all-zero board, turn 1, `isEnd` false and no cached hash |
| Game.State.GetHash | tic_tac_toe.py:19-25 | the returned key is the board's row-major key, which is `Player.get_hash` of the same board, and it is stored in `boardHash` |
| Game.State.AvailablePositions | tic_tac_toe.py:27-34 | every listed position holds 0, every position holding 0 is listed, and the list is empty exactly when the board is full |
| Board.EmptyPositions | tic_tac_toe.py:32-34 | on a key: every listed position's cell is 0, every 0 cell is listed, and the list is empty exactly when the board is full |
| Board.EmptyUpToSpec | tic_tac_toe.py:32-34 | after the scan has passed the first `k` cells in row-major order, every listed position is an empty cell before `k`, every empty cell before `k` is listed, and the positions are strictly increasing |
| Board.EmptyUpToFull | tic_tac_toe.py:32-34 | the scan over all nine cells lists nothing exactly when the board is full |
| Board.EmptyUpToCount | tic_tac_toe.py:32-34 | the scan over the first `k` cells lists as many positions as there are empty cells before `k` |
| Board.EmptyPositionsOrdered | tic_tac_toe.py:32-34 | the positions come in strictly increasing row-major order (i outer, j inner), so each appears once |
| Board.EmptyPositionsCount | tic_tac_toe.py:32-34 | the number of listed positions equals the number of empty cells |
| Board.EmptyCountFull | tic_tac_toe.py:82 | a board is full exactly when its number of empty cells is 0 |
| Board.AfterMove | tic_tac_toe.py:42 | the written cell holds the symbol and every other cell is unchanged |
| Game.State.UpdateState | tic_tac_toe.py:36-43 | the new board is the old one with the mover's symbol at `position` and nothing else changed; the symbol flips 1 <-> -1; the board stays valid |
| Board.EmptyCountAfterMove | tic_tac_toe.py:42 | a move into an empty cell leaves exactly one empty cell fewer |
| Game.State.Winner | tic_tac_toe.py:45-87 | the result is `Judge` of the board, and `isEnd` is set exactly when the result is not `None` |
| Board.ScanFromNone | tic_tac_toe.py:53-67 | the row/column scan finds nothing exactly when no row or column from the start point on sums to 3 or -3 |
| Board.JudgeScanOrder | tic_tac_toe.py:53-67 | if the first of the six rows/columns (rows first) that sums to +-3 is line `m`, the result is that line's sign, whatever lines follow |
| Board.JudgeWinnerOwnsLine | tic_tac_toe.py:53-78 | 1 (or -1) is returned only when that mark owns a whole row, column or diagonal, and every result is in {-1, 0, 1} |
| Board.JudgeSingleOwner | tic_tac_toe.py:53-78 | when the other mark owns no line, a mark is reported the winner exactly when it owns a line |
| Board.JudgeTerminal | tic_tac_toe.py:53-87 | the result is not `None` exactly when some mark owns a line or the board is full; it is 0 exactly when no mark owns a line and the board is full |
| Board.LineSumOwns | tic_tac_toe.py:54-75 | on cells in {-1, 0, 1}, a line sums to 3 * symbol exactly when every one of its cells holds `symbol` |
| Board.EmptyBoardUndecided | tic_tac_toe.py:11 | the new-game board has nine empty cells and is undecided |
| Board.UndecidedHasEmpty | tic_tac_toe.py:80-87 | an undecided board still has an empty cell |
| Game.RewardPair | tic_tac_toe.py:99-107 | the pair lies in [0, 1]; on result 1 the first player gets more, on -1 the second gets more, and on anything else (draw included) the second gets more |
| Game.State.GiveReward | tic_tac_toe.py:90-107 | each player's table becomes `Propagate` of its trace with its reward for the judged result, and valid tables stay valid |
| Game.State.Reset | tic_tac_toe.py:109-116 | a fresh all-zero board, turn 1, `isEnd` false and no cached hash |
| Game.State.ChooseMove | tic_tac_toe.py:133-134 | on a board that is not full, the position is available, its cell is 0, and it is the one the player's `Choose` gives for the available positions, the current key and symbol, and the draws |
| Game.State.Move | tic_tac_toe.py:133-136 | the position was available and is the player's `Choose` on the board before the move; the new board is the old one with the mover's mark there; the turn flips; one empty cell fewer remains |
| Game.State.TakeTurn | tic_tac_toe.py:133-138 | the effect of `Move`, including that the position is the player's `Choose`; `boardHash` holds the new board's key, and that key is appended to the mover's trace |
| Game.State.Turn | tic_tac_toe.py:133-141 | on an undecided board: the move is a `Step`, so the player's `Choose` on the available positions picked an empty cell and the new board is the old one with the mover's mark there; `boardHash` holds the new key; the player's trace grows by the new key, one empty cell fewer remains, the turn flips, and the returned result is `Judge` of the new board with `isEnd` set exactly when it is not `None` |
| Game.TraceExtend | tic_tac_toe.py:136-157 | the key of a new board joins the trace of the player who moved, at its end, and the other player's trace is unchanged |
| Game.State.LegalExtend | tic_tac_toe.py:131-157 | a legal game stays legal when the player whose turn it is makes a `Step` from its last board |
| Game.State.Advance | tic_tac_toe.py:133-141 | a turn by the player whose turn it is keeps the game state consistent: the new board is appended to the boards and its key is cached in `boardHash`, the boards are still `Legal`, each trace holds its player's boards, the turn passes, and the result is `Judge` of the new board |
| Game.State.SecondTurn | tic_tac_toe.py:142-167 | after the first player's move: when the game is not over, the second player takes a turn; the game state stays consistent, `boardHash` still holds the board's key, the result is `Judge` of the board, and when the game goes on it is the first player's turn |
| Game.State.Round | tic_tac_toe.py:132-167 | one pass of the game loop on an undecided board makes at least one move, keeps the game state consistent, leaves the last board's key in `boardHash`, returns `Judge` of the board, and leaves the first player to move when the game goes on |
| Game.State.EndGame | tic_tac_toe.py:145-148 | each table is `Propagate` of the old table and trace with the player's reward; both traces are empty; the state is that of a new game |
| Game.State.PlayGame | tic_tac_toe.py:131-167 | the returned record is `Played` by the starting tables: it takes between 1 and 9 moves; its boards start empty and each follows from the one before by a `Step` of the player whose turn it was (p1 first, with mark 1); `t1` and `t2` are the players' boards in order; the result is not `None` and is `Judge` of the last board; each table becomes its old table with `Propagate` of the player's trace and reward for that result; the game ends with empty traces and a new-game state |
| Game.State.Play | tic_tac_toe.py:118-167 | `rounds` (default 100) games are played and form a `Session`: each game is `Played` by the tables the games before it left behind, with its own draws; each table is `Trained` on the records of all games in order; after every game both traces are empty and the state is that of a new game |
| Game.State.SessionAt | tic_tac_toe.py:129-167 | game `k` of a session is `Played` by the tables `Trained` on the games before it, with the draws of iteration `k + 1` |
| Game.State.SessionPrefix | tic_tac_toe.py:129-167 | whether the first `n` games form a session does not depend on the games after them |
| Game.State.SessionExtend | tic_tac_toe.py:129-167 | a game `Played` by the tables a session has left behind extends the session by one game, and the tables trained on the longer session are the earlier tables with that game's traces and rewards fed back by `Propagate` |
| Game.TrainedPrefix | tic_tac_toe.py:129-167 | the tables after the first `n` games do not depend on the games after them |
| Game.TrainedInUnit | tic_tac_toe.py:129-167 | training on the first `n` games of any sequence keeps every value of a table in [0, 1] |
| Game.TrainedFrame | tic_tac_toe.py:129-167 | a key that none of the first `n` games visited for that player is held after training exactly when it was held before, with the same value |
| Agent.Player.constructor | tic_tac_toe.py:266-276 | empty trace, empty table and the given name and exploration rate, which defaults to 0.3 |
| Agent.Player.GetHash | tic_tac_toe.py:278-285 | the key has nine entries, and entry 3i+j is cell (i, j) |
| Agent.EmptyPositionsBoard | tic_tac_toe.py:32-34 | on a board: every position listed for its key holds 0 on the board, and every position holding 0 on the board is listed |
| Agent.KeyInjective | tic_tac_toe.py:284 | two boards have the same key exactly when all their cells are equal |
| Agent.KeyAfterWrite | tic_tac_toe.py:305-308 | the key of the copied board with `symbol` written at `p` is `AfterMove` of the current key |
| Agent.KeyLineSums | tic_tac_toe.py:54-66 | the sums over row `i` and column `i` of the board are the sums of the corresponding lines of its key |
| Agent.KeyDiagonalSums | tic_tac_toe.py:69-70 | the two diagonal sums of the board are the sums of the diagonals of its key |
| Agent.Player.ChooseAction | tic_tac_toe.py:287-313 | the action is `Choose` of the candidates, the board's key, the symbol and the draws: the greedy loop, scoring each candidate on a copy of the board, ends where `GreedyScan` does; nothing is modified |
| Agent.GreedyScanLast | tic_tac_toe.py:303-312 | the greedy scan ends on the candidate at an index `n` whose score is the running maximum, no candidate scores higher and none after `n` scores as high (the last maximum); it ends on no candidate only when every score is below -999 |
| Agent.ChooseSpec | tic_tac_toe.py:297-313 | the choice is a candidate; with a valid table and candidates there is always one; exploring (`u <= expRate`) takes the candidate `pick` selects; otherwise no choice exactly when every score is below -999, and any choice is the last highest-scoring candidate (0 for absent keys) |
| Agent.Player.AddState | tic_tac_toe.py:316-317 | the key is appended to the trace |
| Agent.Update | tic_tac_toe.py:335 | the new value's distance to `0.9 * r` is 0.8 times the old one's, and values and rewards in [0, 1] give a value in [0, 1] |
| Agent.Lookup | tic_tac_toe.py:309 | a key missing from the table reads as 0, and a value in a table with values in [0, 1] is in [0, 1] |
| Agent.Player.FeedReward | tic_tac_toe.py:320-336 | the new table is `Propagate` of the old table and the trace, which walks the trace from last to first, creating missing keys at 0 and carrying each new value back as the next reward; valid tables stay valid under rewards in [0, 1] |
| Agent.PropagateFrame | tic_tac_toe.py:332-336 | afterwards the table holds exactly the old keys and the keys of the trace, and keys outside the trace keep their values (so an empty trace changes nothing) |
| Agent.PropagateInUnit | tic_tac_toe.py:332-336 | rewards in [0, 1] keep all values in [0, 1] |
| Agent.FeedRewardExamples | tic_tac_toe.py:332-336 | one fresh state with reward 1 is worth 0.18; with two fresh states the earlier one gets 0.0324 |
| Agent.Player.Reset | tic_tac_toe.py:338-342 | the trace is empty |

## Left out

- The exploration draws `np.random.uniform` and `np.random.choice` are inputs (`u`, `pick`) instead of randomness. `pick` is reduced modulo the number of candidates, where numpy draws an index below it.
- The key is the 9-cell row-major sequence, not the `str` of the reshaped numpy array. The numpy text format is not modelled.
- Python raises an error when `choose_action` has no candidates (`np.random.choice(0)`, or `action` never assigned), and also when every greedy score is below -999. The model returns `None` in those cases. `play` never reaches them, because `Play` and `PlayGame` require both tables to be valid (every value in [0, 1]), and `Move` requires the mover's table to be valid and the board not to be full.
- The table holds exact reals, not IEEE doubles. Rounding is not modelled.
- The cells are `int` in {-1, 0, 1} rather than numpy floats.
- `show_board`, `play_with_human`, `evaluation_play` and `HumanPlayer` are console display and interactive input, so they are not modelled.
- `save_policy` and `load_policy` are file I/O through `pickle`, so they are not modelled.
- The progress print every 500 rounds and the `__main__` script are not modelled.
- Game.State.constructor requires two distinct players. When one object plays both sides, its single trace holds both sides' keys interleaved, and `give_reward` feeds that trace twice, first with p1's reward and then with p2's; this model does not describe that.
- Game.State.UpdateState requires the target cell to be empty. The source writes without checking, and `play` only passes available positions.
- Game.State.Play requires a new-game state and empty traces on entry. The source also runs from any state left by an earlier call, but `play` always leaves that state.
- The game loop of `play` gives the rewards and resets the players and the board inside the loop, just before `break`. The model leaves the loop when `isEnd` is set and then calls `EndGame`, which makes the same four calls in the same order.
- The row and column scan of `winner` is the recursive `ScanFrom`. Its "first line found" property is stated by the lemmas ScanFromNone and JudgeScanOrder, not by an `ensures` on `ScanFrom`.
