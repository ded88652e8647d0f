/** `src/screens/GameScreen.tsx`: the live game. It opens the account event stream, opens a
    game stream on every `gameStart` and feeds its events to the store, runs the clock while
    the game is playing, and turns clicks into selections, justified moves and resignations. */
module GameScreen {
  import opened Wrappers
  import opened Text
  import opened Types
  import opened ChessOracle
  import opened ChessUtils
  import opened GameStore
  import opened Lichess
  import opened JustificationStore
  import JustificationInput

  /** Whether the side to move is the player's, as the screen computes it from
      `playerColor === 'white'`. */
  predicate IsPlayerTurn(turn: Side, playerColor: Color)
  {
    var isWhitePlayer := playerColor == White;
    (turn == W && isWhitePlayer) || (turn == B && !isWhitePlayer)
  }

  /** The screen and the store agree on whose turn it is. */
  lemma PlayerTurnIsStoreTurn(turn: Side, playerColor: Color)
    ensures IsPlayerTurn(turn, playerColor) <==> IsOurTurn(turn, playerColor)
  {
  }

  /** The clocks the screen shows: the player's own and the opponent's. */
  function PlayerTime(g: GameState): (t: int)
    ensures g.playerColor == White ==> t == g.whiteTime
    ensures g.playerColor == Black ==> t == g.blackTime
  {
    if g.playerColor == White then g.whiteTime else g.blackTime
  }

  function OpponentTime(g: GameState): (t: int)
    ensures g.playerColor == White ==> t == g.blackTime
    ensures g.playerColor == Black ==> t == g.whiteTime
  {
    if g.playerColor == White then g.blackTime else g.whiteTime
  }

  /** Which clock is shown running: the player's on the player's turn, the opponent's
      otherwise, and neither outside a playing game. */
  function ActiveClocks(g: GameState): (active: (bool, bool))
    ensures active.0 <==> IsPlayerTurn(g.turn, g.playerColor) && g.status == Playing
    ensures active.1 <==> !IsPlayerTurn(g.turn, g.playerColor) && g.status == Playing
  {
    var mine := IsPlayerTurn(g.turn, g.playerColor);
    (mine && g.status == Playing, !mine && g.status == Playing)
  }

  /** The clock shown running is the clock `updateClocks` runs down: at most one runs, and it
      is the clock of the side to move. */
  lemma ActiveClockIsTicking(g: GameState)
    requires g.status == Playing
    ensures !(ActiveClocks(g).0 && ActiveClocks(g).1)
    ensures ActiveClocks(g).0 ==> PlayerTime(g) == (if g.turn == W then g.whiteTime else g.blackTime)
    ensures ActiveClocks(g).1 ==> OpponentTime(g) == (if g.turn == W then g.whiteTime else g.blackTime)
  {
  }

  /** The justification a submission records for the pending move is found again for that
      move: its code is the move's code. */
  lemma SubmittedJustificationIsFound(js: seq<Justification>, p: PendingMove, moves: seq<string>,
                                      text: string, now: int, fen: string)
    ensures var j := Justification(|moves| / 2 + 1, p.san, p.uci, text, now, fen);
            FindJustification(js + [j], p.uci, |moves| / 2 + 1, p.san).Some?
  {
    var j := Justification(|moves| / 2 + 1, p.san, p.uci, text, now, fen);
    assert Matches((js + [j])[|js|], p.uci, |moves| / 2 + 1, p.san);
  }

  /** The screen's own state: its stream handles (`eventCleanup` and the `gameStreamCleanup`
      ref), the resign confirmation flag, and whether the clock interval is set. `streams` lists,
      oldest first, every game stream the screen has streams. */
  class Screen {
    const store: Store
    const journal: Justifications
    var eventStream: Option<StreamHandle>
    var gameStream: Option<StreamHandle>
    ghost var streams: seq<StreamHandle>
    var gameIds: seq<string>
    var showResignConfirm: bool
    var clockRunning: bool

    /** The ref holds the latest game stream streams, and every game streams has its id. */
    ghost predicate Tracked()
      reads this
    {
      && (gameStream.Some? <==> streams != [])
      && (gameStream.Some? ==> gameStream.value == Last(streams))
      && |gameIds| == |streams|
    }

    /** Every game stream but the latest has been cancelled. */
    ghost predicate OnlyLatestLive()
      reads this, streams
    {
      forall k :: 0 <= k < |streams| - 1 ==> streams[k].aborted
    }

    constructor(store: Store, journal: Justifications)
      ensures this.store == store && this.journal == journal
      ensures eventStream.None? && gameStream.None? && streams == [] && gameIds == []
      ensures !showResignConfirm && !clockRunning
      ensures Tracked() && OnlyLatestLive()
    {
      this.store := store;
      this.journal := journal;
      eventStream, gameStream, streams, gameIds := None, None, [], [];
      showResignConfirm, clockRunning := false, false;
    }

    /** The first effect: with a signed-in user it opens the account event stream; without
        one it does nothing. */
    method Mount(user: Option<LichessUser>)
      modifies this`eventStream
      ensures user.None? ==> eventStream == old(eventStream)
      ensures user.Some? ==> eventStream.Some? && fresh(eventStream.value) && !eventStream.value.aborted
    {
      if user.None? {
        return;
      }
      var h := new StreamHandle();
      eventStream := Some(h);
    }

    /** The account stream's callback as written: a `gameStart` opens a game stream and
        overwrites the ref, losing the handle of any game stream streams before; every other
        event is ignored. */
    method OnAccountEventAsWritten(ev: LichessEvent)
      requires Tracked()
      modifies this`gameStream, this`streams, this`gameIds
      ensures Tracked()
      ensures !ev.GameStart? ==> gameStream == old(gameStream) && streams == old(streams) && gameIds == old(gameIds)
      ensures ev.GameStart? ==> gameStream.Some? && fresh(gameStream.value) && !gameStream.value.aborted
                                && streams == old(streams) + [gameStream.value] && gameIds == old(gameIds) + [ev.gameId]
    {
      if ev.GameStart? {
        var h := new StreamHandle();
        gameStream := Some(h);
        streams := streams + [h];
        gameIds := gameIds + [ev.gameId];
      }
    }

    /** The account stream's callback with the previous game stream cancelled before the ref is
        overwritten, so that only the latest game stream feeds the store. */
    method OnAccountEvent(ev: LichessEvent)
      requires Tracked() && OnlyLatestLive()
      modifies this`gameStream, this`streams, this`gameIds, streams
      ensures Tracked() && OnlyLatestLive()
      ensures !ev.GameStart? ==> gameStream == old(gameStream) && streams == old(streams) && gameIds == old(gameIds)
      ensures ev.GameStart? ==> gameStream.Some? && fresh(gameStream.value) && !gameStream.value.aborted
                                && streams == old(streams) + [gameStream.value] && gameIds == old(gameIds) + [ev.gameId]
    {
      if ev.GameStart? {
        if gameStream.Some? {
          gameStream.value.Cancel();
        }
        var h := new StreamHandle();
        gameStream := Some(h);
        streams := streams + [h];
        gameIds := gameIds + [ev.gameId];
      }
    }

    /** The game stream's callback: `gameFull` initialises the game for the signed-in user,
        `gameState` updates it, and anything else is ignored. */
    method OnGameEvent(ev: LichessEvent, userId: string)
      modifies store`game, store`selectedSquare, store`pendingMove, store`legalMoves
      ensures ev.GameFull? ==> store.game == GameFromFull(store.oracle, ev, userId, old(store.game))
                               && store.NothingSelected() && store.Valid()
      ensures ev.GameStateUpdate? ==> store.game == GameAfterUpdate(store.oracle, ev.update, old(store.game))
                                      && store.NothingSelected() && store.Valid()
      ensures ev.GameStart? || ev.OtherEvent? ==> unchanged(store)
    {
      if ev.GameFull? {
        store.InitializeGame(ev, userId);
      } else if ev.GameStateUpdate? {
        store.UpdateGameState(ev.update);
      }
    }

    /** The first effect's cleanup: cancels the account stream and the game stream the ref
        holds. */
    method Teardown()
      modifies (if eventStream.Some? then {eventStream.value} else {}), (if gameStream.Some? then {gameStream.value} else {})
      ensures eventStream.Some? ==> eventStream.value.aborted
      ensures gameStream.Some? ==> gameStream.value.aborted
    {
      if eventStream.Some? {
        eventStream.value.Cancel();
      }
      if gameStream.Some? {
        gameStream.value.Cancel();
      }
    }

    /** With the previous stream cancelled on every `gameStart`, the cleanup leaves no game
        stream running. */
    lemma TeardownStopsAll()
      requires Tracked() && OnlyLatestLive()
      requires gameStream.Some? ==> gameStream.value.aborted
      ensures forall h :: h in streams ==> h.aborted
    {
      forall h | h in streams
        ensures h.aborted
      {
        var k :| 0 <= k < |streams| && streams[k] == h;
        if k < |streams| - 1 {
          assert streams[k].aborted;
        }
      }
    }

    /** The clock effect: the interval runs exactly while the game is playing. */
    method SyncClock()
      modifies this`clockRunning
      ensures clockRunning <==> store.game.status == Playing
    {
      clockRunning := store.game.status == Playing;
    }

    /** One tick of the interval: the store runs the side to move's clock down by 100 ms. */
    method Tick()
      requires store.Valid()
      modifies store`game
      ensures store.Valid()
      ensures !clockRunning || old(store.game.status) != Playing ==> store.game == old(store.game)
      ensures clockRunning && old(store.game.status) == Playing ==>
                store.game == old(store.game).(whiteTime := if old(store.game.turn) == W then CountDown(old(store.game.whiteTime), 100) else old(store.game.whiteTime),
                                               blackTime := if old(store.game.turn) == B then CountDown(old(store.game.blackTime), 100) else old(store.game.blackTime))
    {
      if clockRunning {
        store.UpdateClocks(100);
      }
    }

    /** `handleSquareClick`: ignored while a move waits for its justification. */
    method HandleSquareClick(square: string)
      requires store.Valid()
      modifies store`selectedSquare, store`pendingMove, store`legalMoves
      ensures store.Valid()
      ensures old(store.pendingMove).Some? ==> store.pendingMove == old(store.pendingMove)
                                               && store.selectedSquare == old(store.selectedSquare)
                                               && store.legalMoves == old(store.legalMoves)
      ensures old(store.pendingMove).None? && !old(store.Acts()) ==>
                store.selectedSquare == old(store.selectedSquare) && store.pendingMove == old(store.pendingMove)
                && store.legalMoves == old(store.legalMoves)
      ensures old(store.pendingMove).None? && old(store.Acts()) && old(store.CompletesMove(square)) ==>
                var pm := PendingFor(store.oracle, store.game.fen, old(store.selectedSquare).value, square);
                if pm.Some? then store.pendingMove == pm && store.selectedSquare.None? && store.legalMoves == []
                else store.selectedSquare == old(store.selectedSquare) && store.pendingMove == old(store.pendingMove)
                     && store.legalMoves == old(store.legalMoves)
      ensures old(store.pendingMove).None? && old(store.Acts()) && !old(store.CompletesMove(square)) ==>
                if OwnPiece(store.oracle.pieceAt(store.game.fen, square), store.game.playerColor)
                then store.selectedSquare == Some(square) && store.pendingMove.None?
                     && store.legalMoves == LegalMovesForSquare(store.oracle, store.game.fen, square)
                else store.NothingSelected()
    {
      if store.pendingMove.Some? {
        return;
      }
      store.SelectSquare(square);
    }

    /** `handleJustificationSubmit`: needs a pending move and a text of at least ten
        characters; records the justification under move number `floor(moves / 2) + 1` with the
        pending move's SAN and code, the current text and position, then confirms the move.
        Returns the code submitted. `now` is the clock reading. */
    method HandleJustificationSubmit(now: int) returns (submitted: Option<string>)
      requires store.Valid()
      modifies journal`justifications, journal`currentText, store`pendingMove
      ensures store.Valid()
      ensures old(store.pendingMove).None? || |old(journal.currentText)| < JustificationInput.MinChars ==>
                submitted.None? && journal.justifications == old(journal.justifications)
                && journal.currentText == old(journal.currentText) && store.pendingMove == old(store.pendingMove)
      ensures old(store.pendingMove).Some? && |old(journal.currentText)| >= JustificationInput.MinChars ==>
                var p := old(store.pendingMove).value;
                && journal.justifications == old(journal.justifications)
                     + [Justification(|store.game.moves| / 2 + 1, p.san, p.uci, old(journal.currentText), now, store.game.fen)]
                && journal.currentText == ""
                && (store.game.gameId.Some? && store.game.gameId.value != "" ==> submitted == Some(p.uci) && store.pendingMove.None?)
                && (store.game.gameId.None? || store.game.gameId.value == "" ==>
                      submitted.None? && store.pendingMove == old(store.pendingMove))
    {
      if store.pendingMove.None? || |journal.currentText| < JustificationInput.MinChars {
        return None;
      }
      var p := store.pendingMove.value;
      var moveNumber := |store.game.moves| / 2 + 1;
      journal.AddJustification(moveNumber, p.san, p.uci, journal.currentText, store.game.fen, now);
      submitted := store.ConfirmMove();
    }

    /** `handleResign`: the first click asks for confirmation, the second resigns. Returns the
        game the resignation is sent for. */
    method HandleResign() returns (target: Option<string>)
      modifies this`showResignConfirm
      ensures !old(showResignConfirm) ==> showResignConfirm && target.None?
      ensures old(showResignConfirm) ==> !showResignConfirm
                                         && (target.Some? <==> store.game.gameId.Some? && store.game.gameId.value != "")
                                         && (target.Some? ==> target == store.game.gameId)
    {
      if showResignConfirm {
        target := store.Resign();
        showResignConfirm := false;
      } else {
        showResignConfirm := true;
        target := None;
      }
    }

    /** The "Cancel" button next to the confirmation. */
    method CancelResign()
      modifies this`showResignConfirm
      ensures !showResignConfirm
    {
      showResignConfirm := false;
    }

    /** The check highlight: when the side to move is in check, the first king of that side
        on the library's board; nothing otherwise. */
    method CheckedKing() returns (square: Option<string>)
      ensures !IsInCheck(store.oracle, store.game.fen) ==> square.None?
      ensures IsInCheck(store.oracle, store.game.fen) ==>
                var board := store.oracle.board(store.game.fen);
                && (square.None? <==> NoKingBefore(board, store.game.turn, 8, 0))
                && (square.Some? ==> exists r, c :: 0 <= r < 8 && 0 <= c < 8 && IsKingOf(board[r][c], store.game.turn)
                                                 && NoKingBefore(board, store.game.turn, r, c) && square.value == SquareName(r, c))
    {
      if !IsInCheck(store.oracle, store.game.fen) {
        return None;
      }
      square := GetKingSquare(store.oracle, store.game.fen, store.game.turn);
    }
  }

  /** The leak in the account stream's callback as written: after two `gameStart` events and
      the cleanup, the first game stream is still running. */
  method TwoGamesLeakAsWritten(o: Oracle, first: string, second: string) returns (leaked: StreamHandle)
    ensures !leaked.aborted
  {
    var store := new Store(o);
    var journal := new Justifications();
    var screen := new Screen(store, journal);
    screen.OnAccountEventAsWritten(GameStart(first));
    leaked := screen.gameStream.value;
    screen.OnAccountEventAsWritten(GameStart(second));
    screen.Teardown();
  }

  /** The same events with the corrected callback: after the cleanup neither game stream
      runs. */
  method TwoGamesCorrected(o: Oracle, first: string, second: string) returns (a: StreamHandle, b: StreamHandle)
    ensures a != b && a.aborted && b.aborted
  {
    var store := new Store(o);
    var journal := new Justifications();
    var screen := new Screen(store, journal);
    screen.OnAccountEvent(GameStart(first));
    a := screen.gameStream.value;
    screen.OnAccountEvent(GameStart(second));
    b := screen.gameStream.value;
    assert screen.streams == [a, b];
    assert screen.streams[0].aborted;
    screen.Teardown();
  }
}
