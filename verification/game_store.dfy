/** `src/stores/gameStore.ts`: the live game session. The server's move list is folded into a
    position, the server's status code into a terminal result, clicks on the board into a
    selection or a pending move, and the clocks are re-anchored by the server and ticked down
    locally. */
module GameStore {
  import opened Wrappers
  import opened Text
  import opened Types
  import opened ChessOracle
  import opened ChessUtils

  /** `initialGameState`. */
  const InitialGameState: GameState :=
    GameState(None, StartFen, W, White, "", 0, Idle, None, None, 0, 0, [], None, 0, 0)

  /** `filter(m => m)`: the non-empty strings of a list, in order. */
  function NonEmpty(parts: seq<string>): (kept: seq<string>)
    ensures forall i :: 0 <= i < |kept| ==> kept[i] != ""
    ensures forall x :: x in kept <==> x in parts && x != ""
    ensures |kept| <= |parts|
  {
    if |parts| == 0 then []
    else if parts[0] == "" then NonEmpty(parts[1..])
    else [parts[0]] + NonEmpty(parts[1..])
  }

  /** A single piece is kept exactly when it is not empty. */
  lemma NonEmptySingle(x: string)
    ensures NonEmpty([x]) == if x == "" then [] else [x]
  {
    assert [x][1..] == [];
  }

  /** Filtering keeps the order and the multiplicity of the pieces: filtering a concatenation
      concatenates the filtered parts. */
  lemma {:induction false} NonEmptyAppend(a: seq<string>, b: seq<string>)
    ensures NonEmpty(a + b) == NonEmpty(a) + NonEmpty(b)
    decreases |a|
  {
    if |a| == 0 {
      assert a + b == b;
    } else {
      assert (a + b)[1..] == a[1..] + b;
      NonEmptyAppend(a[1..], b);
    }
  }

  lemma {:induction false} NonEmptyKeepsAll(parts: seq<string>)
    requires forall i :: 0 <= i < |parts| ==> parts[i] != ""
    ensures NonEmpty(parts) == parts
    decreases |parts|
  {
    if |parts| > 0 {
      NonEmptyKeepsAll(parts[1..]);
      assert [parts[0]] + parts[1..] == parts;
    }
  }

  /** How the store reads the server's move string: split on single spaces and drop the empty
      pieces; an empty (or absent) string gives no moves. */
  function ParseMoves(movesStr: string): (codes: seq<string>)
    ensures forall i :: 0 <= i < |codes| ==> codes[i] != "" && ' ' !in codes[i]
    ensures movesStr == "" ==> codes == []
  {
    if movesStr == "" then []
    else
      var parts := Split(movesStr, ' ');
      var kept := NonEmpty(parts);
      assert forall i :: 0 <= i < |kept| ==> ' ' !in kept[i] by {
        forall i | 0 <= i < |kept| ensures ' ' !in kept[i] {
          assert kept[i] in kept;
          var j :| 0 <= j < |parts| && parts[j] == kept[i];
        }
      }
      kept
  }

  /** Reading a space-joined list of move codes gives the list back. */
  lemma ParseMovesJoin(codes: seq<string>)
    requires forall i :: 0 <= i < |codes| ==> codes[i] != "" && ' ' !in codes[i]
    ensures ParseMoves(Join(codes, ' ')) == codes
  {
    if |codes| > 0 {
      JoinStartsWithFirst(codes, ' ');
      SplitJoin(codes, ' ');
      NonEmptyKeepsAll(codes);
    }
  }

  lemma JoinStartsWithFirst(parts: seq<string>, sep: char)
    requires |parts| > 0
    ensures |Join(parts, sep)| >= |parts[0]|
  {
  }

  /** Doubled, leading or trailing spaces only produce empty pieces, which are dropped: the
      codes are the non-empty space-free runs of the text, in order. */
  lemma ParseMovesPieces(movesStr: string)
    ensures forall c :: c in ParseMoves(movesStr) <==> c in Split(movesStr, ' ') && c != ""
  {
  }

  /** `lastMove`: the squares of the final code, or nothing when there are no moves. */
  function LastMoveOf(codes: seq<string>): (lm: Option<LastMove>)
    ensures lm.None? <==> codes == []
    ensures lm.Some? ==> lm.value.from == DecodeUci(Last(codes)).from && lm.value.to == DecodeUci(Last(codes)).to
  {
    if |codes| > 0 then Some(LastMove(Slice(Last(codes), 0, 2), Slice(Last(codes), 2, 4))) else None
  }

  /** The server status codes that end a game. */
  const EndStatuses: seq<string> := ["mate", "resign", "timeout", "draw", "stalemate", "outoftime", "aborted"]

  /** The terminal `result` text and `winner` the store records. */
  datatype Ending = Ending(result: string, winner: Option<string>)

  /** The colour name of a side. */
  function SideName(s: Side): string
  {
    if s == W then "white" else "black"
  }

  function Opponent(s: Side): Side
  {
    if s == W then B else W
  }

  /** The terminal-status table: `None` for a status code that does not end the game. A mate is
      won by the side not to move in the replayed position; resignations and time-outs copy
      the server's winner; stalemates and draws are drawn; an aborted game has no winner. */
  function EndOfGame(code: string, turnAfter: Side, eventWinner: Option<string>): (e: Option<Ending>)
    ensures e.Some? <==> code in EndStatuses
    ensures code == "mate" ==> e == Some(Ending("Checkmate", Some(SideName(Opponent(turnAfter)))))
    ensures code == "resign" ==> e == Some(Ending("Resignation", eventWinner))
    ensures code == "timeout" || code == "outoftime" ==> e == Some(Ending("Time out", eventWinner))
    ensures code == "stalemate" ==> e == Some(Ending("Stalemate", Some("draw")))
    ensures code == "draw" ==> e == Some(Ending("Draw", Some("draw")))
    ensures code == "aborted" ==> e == Some(Ending("Aborted", None))
  {
    if code == "mate" then Some(Ending("Checkmate", Some(if turnAfter == W then "black" else "white")))
    else if code == "resign" then Some(Ending("Resignation", eventWinner))
    else if code == "timeout" || code == "outoftime" then Some(Ending("Time out", eventWinner))
    else if code == "stalemate" then Some(Ending("Stalemate", Some("draw")))
    else if code == "draw" then Some(Ending("Draw", Some("draw")))
    else if code == "aborted" then Some(Ending("Aborted", None))
    else None
  }

  /** A mate is never recorded as a draw, and a checkmated side never wins. */
  lemma MateWinnerIsNotToMove(turnAfter: Side, eventWinner: Option<string>)
    ensures var e := EndOfGame("mate", turnAfter, eventWinner);
            e.Some? && e.value.winner.Some? && e.value.winner.value != "draw"
            && e.value.winner.value != SideName(turnAfter)
  {
  }

  /** Whether it is the player's move: the side to move has the player's colour. */
  predicate IsOurTurn(turn: Side, c: Color)
  {
    (turn == W && c == White) || (turn == B && c == Black)
  }

  predicate OwnPiece(p: Option<Piece>, c: Color)
  {
    p.Some? && ((p.value.color == W && c == White) || (p.value.color == B && c == Black))
  }

  /** The promotion piece the store adds: a queen exactly when a pawn reaches the last rank of
      its colour (rank 8 for white, rank 1 for black). */
  function PromotionFor(moving: Option<Piece>, to: string): (promo: Option<char>)
    ensures promo.None? || promo == Some('q')
    ensures promo.Some? <==> (moving.Some? && moving.value.kind == Pawn && |to| > 1
                              && ((moving.value.color == W && to[1] == '8') || (moving.value.color == B && to[1] == '1')))
  {
    if moving.Some? && moving.value.kind == Pawn && |to| > 1
       && ((moving.value.color == W && to[1] == '8') || (moving.value.color == B && to[1] == '1'))
    then Some('q') else None
  }

  /** A pending move the library accepts at `fen`, whose SAN is the library's and whose code is
      `from + to + (promotion || '')`. */
  predicate PendingIsLegal(o: Oracle, fen: string, p: PendingMove)
  {
    var outcome := o.move(fen, MoveRequest(p.from, p.to, p.promotion));
    outcome.Moved? && outcome.san == p.san && p.uci == EncodeUci(MoveRequest(p.from, p.to, p.promotion))
  }

  /** The pending move a click from `from` to `to` creates, or `None` when the library refuses
      or raises on it. */
  function PendingFor(o: Oracle, fen: string, from: string, to: string): (pm: Option<PendingMove>)
    ensures pm.None? <==> !o.move(fen, MoveRequest(from, to, PromotionFor(o.pieceAt(fen, from), to))).Moved?
    ensures pm.Some? ==> PendingIsLegal(o, fen, pm.value) && pm.value.from == from && pm.value.to == to
                         && pm.value.promotion == PromotionFor(o.pieceAt(fen, from), to)
  {
    var promotion := PromotionFor(o.pieceAt(fen, from), to);
    var req := MoveRequest(from, to, promotion);
    match o.move(fen, req)
    case Moved(_, san) => Some(PendingMove(from, to, san, EncodeUci(req), promotion))
    case _ => None
  }

  /** A pending move's code, sent to the server and echoed back in its move list, decodes to
      the same request; replaying it reaches the position the library gave, and the move list
      shows the SAN the player confirmed. */
  lemma PendingRoundTrip(o: Oracle, fen: string, p: PendingMove)
    requires PendingIsLegal(o, fen, p)
    requires |p.from| == 2 && |p.to| == 2
    ensures DecodeUci(p.uci) == MoveRequest(p.from, p.to, p.promotion)
    ensures UciToSan(o, fen, p.uci) == Some(p.san)
    ensures ReplayFen(o, fen, [p.uci]) == o.move(fen, MoveRequest(p.from, p.to, p.promotion)).fen
  {
    DecodeEncode(MoveRequest(p.from, p.to, p.promotion));
    assert Init([p.uci]) == [];
  }

  /** `opponent.rating || 1500`: a missing or zero rating reads as 1500. */
  function RatingOr1500(rating: Option<int>): (r: int)
    ensures rating.Some? && rating.value != 0 ==> r == rating.value
    ensures rating.None? || rating.value == 0 ==> r == 1500
  {
    if rating.Some? && rating.value != 0 then rating.value else 1500
  }

  /** `Math.max(0, t - delta)`. */
  function CountDown(t: int, delta: int): (r: int)
    ensures r >= 0
    ensures t - delta >= 0 ==> r == t - delta
    ensures t - delta < 0 ==> r == 0
  {
    if t - delta > 0 then t - delta else 0
  }

  /** A tick never raises a clock that was not negative when the delta is not negative. */
  lemma CountDownNotUp(t: int, delta: int)
    requires t >= 0 && delta >= 0
    ensures 0 <= CountDown(t, delta) <= t
  {
  }

  /** Replays the server's move codes on a fresh board with the store's `try`/`catch` loop: a
      code the library refuses or raises on is skipped. */
  method ReplayMoves(o: Oracle, codes: seq<string>) returns (fen: string)
    ensures fen == ReplayFen(o, StartFen, codes)
  {
    fen := StartFen;
    for i := 0 to |codes|
      invariant fen == ReplayFen(o, StartFen, codes[..i])
    {
      var outcome := o.move(fen, DecodeUci(codes[i]));
      if outcome.Moved? {
        fen := outcome.fen;
      }
      assert Init(codes[..i + 1]) == codes[..i];
    }
    assert codes[..|codes|] == codes;
  }

  /** The session `initializeGame` sets up from a `gameFull` event, where `prev` is the
      session before it: the player is white exactly when the white id matches theirs ignoring
      case; the move list is replayed from the standard start; the opponent's name falls back
      to their id and the rating to 1500; the session is playing, without a result, and the time
      control chosen when seeking is kept. */
  function GameFromFull(o: Oracle, full: LichessEvent, myUserId: string, prev: GameState): GameState
    requires full.GameFull?
  {
    var codes := ParseMoves(full.state.moves);
    var fen := ReplayFen(o, StartFen, codes);
    var isWhite := Lower(full.white.id) == Lower(myUserId);
    var opponent := if isWhite then full.black else full.white;
    GameState(Some(full.id), fen, o.turn(fen), if isWhite then White else Black,
              if opponent.name != "" then opponent.name else opponent.id,
              RatingOr1500(opponent.rating), Playing, None, None,
              full.state.wtime, full.state.btime, codes, LastMoveOf(codes),
              prev.initialTime, prev.increment)
  }

  /** The session `updateGameState` leaves after a `gameState` event: the position is replayed
      from the server's move list and the clocks are re-anchored to the server's. A terminal
      status code finishes the game with the table's result; any other code keeps the status
      but still resets `result` and `winner` to null. */
  function GameAfterUpdate(o: Oracle, ev: GameStateEvent, prev: GameState): GameState
  {
    var codes := ParseMoves(ev.moves);
    var fen := ReplayFen(o, StartFen, codes);
    var ending := EndOfGame(ev.status, o.turn(fen), ev.winner);
    prev.(fen := fen, turn := o.turn(fen),
          whiteTime := ev.wtime, blackTime := ev.btime,
          moves := codes, lastMove := LastMoveOf(codes),
          status := if ending.Some? then Finished else prev.status,
          result := if ending.Some? then Some(ending.value.result) else None,
          winner := if ending.Some? then ending.value.winner else None)
  }

  /** A `gameFull` event starts a playing game with no result, whose position is the replay of
      its move list, whose last move is the last code of that list, and whose side to move is
      the library's; the player's colour depends only on the white player's id. */
  lemma FullGameStarts(o: Oracle, full: LichessEvent, myUserId: string, prev: GameState)
    requires full.GameFull?
    ensures var g := GameFromFull(o, full, myUserId, prev);
            && g.status == Playing && g.result.None? && g.winner.None?
            && g.gameId == Some(full.id)
            && g.moves == ParseMoves(full.state.moves)
            && g.fen == ReplayFen(o, StartFen, g.moves) && g.turn == o.turn(g.fen)
            && (g.lastMove.None? <==> g.moves == [])
            && (g.playerColor == White <==> Lower(full.white.id) == Lower(myUserId))
            && g.initialTime == prev.initialTime && g.increment == prev.increment
  {
  }

  /** After a `gameState` event the session is finished exactly when the code is terminal or it
      already was, carries a result exactly when the code is terminal, and follows the server's
      moves and clocks; the opponent and the colours are untouched. */
  lemma UpdateFinishesOnTerminal(o: Oracle, ev: GameStateEvent, prev: GameState)
    ensures var g := GameAfterUpdate(o, ev, prev);
            && (g.status == Finished <==> ev.status in EndStatuses || prev.status == Finished)
            && (g.result.Some? <==> ev.status in EndStatuses)
            && (g.status != prev.status ==> g.status == Finished)
            && g.moves == ParseMoves(ev.moves) && g.fen == ReplayFen(o, StartFen, g.moves)
            && g.whiteTime == ev.wtime && g.blackTime == ev.btime
            && g.gameId == prev.gameId && g.playerColor == prev.playerColor
            && g.opponentName == prev.opponentName && g.opponentRating == prev.opponentRating
  {
  }

  /** The store. `game` holds the fields of `GameState`, which `set({...})` merges into; the
      `Chess` object the store keeps is its position `game.fen`. */
  class Store {
    const oracle: Oracle
    var game: GameState
    var selectedSquare: Option<string>
    var pendingMove: Option<PendingMove>
    var legalMoves: seq<string>

    /** The selection invariants every action keeps: a selection and a pending move never
        coexist; destinations only exist for a selected square, and they are the library's
        destinations from it; only an own piece is selected; a pending move is one the library
        accepts, with its SAN and code; either exists only on the player's turn; and a finished
        game has neither. */
    ghost predicate Valid()
      reads this
    {
      && !(selectedSquare.Some? && pendingMove.Some?)
      && (legalMoves != [] ==> selectedSquare.Some?)
      && (selectedSquare.Some? ==>
            legalMoves == LegalMovesForSquare(oracle, game.fen, selectedSquare.value)
            && OwnPiece(oracle.pieceAt(game.fen, selectedSquare.value), game.playerColor))
      && (pendingMove.Some? ==> PendingIsLegal(oracle, game.fen, pendingMove.value))
      && (selectedSquare.Some? || pendingMove.Some? ==> IsOurTurn(game.turn, game.playerColor))
      && (game.status == Finished ==> selectedSquare.None? && pendingMove.None? && legalMoves == [])
    }

    predicate NothingSelected()
      reads this
    {
      selectedSquare.None? && pendingMove.None? && legalMoves == []
    }

    constructor(o: Oracle)
      ensures oracle == o && game == InitialGameState && NothingSelected() && Valid()
    {
      oracle := o;
      game := InitialGameState;
      selectedSquare := None;
      pendingMove := None;
      legalMoves := [];
    }

    /** `seekGame`: marks the session as seeking with the chosen time control; a seek the
        server refuses puts the session back to idle. */
    method SeekGame(initial: int, increment: int, seekFailed: bool)
      requires Valid()
      modifies this`game
      ensures Valid()
      ensures game == old(game).(status := if seekFailed then Idle else Seeking,
                                 initialTime := initial, increment := increment)
    {
      game := game.(status := Seeking, initialTime := initial, increment := increment);
      if seekFailed {
        game := game.(status := Idle);
      }
    }

    /** `cancelSeek`. */
    method CancelSeek()
      requires Valid()
      modifies this`game
      ensures Valid()
      ensures game == old(game).(status := Idle)
    {
      game := game.(status := Idle);
    }

    /** `initializeGame`: the session becomes the game of the `gameFull` event, and the
        selection is cleared. */
    method InitializeGame(full: LichessEvent, myUserId: string)
      requires full.GameFull?
      modifies this`game, this`selectedSquare, this`pendingMove, this`legalMoves
      ensures Valid() && NothingSelected()
      ensures game == GameFromFull(oracle, full, myUserId, old(game))
    {
      var isWhite := Lower(full.white.id) == Lower(myUserId);
      var opponent := if isWhite then full.black else full.white;
      var codes := ParseMoves(full.state.moves);
      var fen := ReplayMoves(oracle, codes);
      game := GameState(Some(full.id), fen, oracle.turn(fen), if isWhite then White else Black,
                        if opponent.name != "" then opponent.name else opponent.id,
                        RatingOr1500(opponent.rating), Playing, None, None,
                        full.state.wtime, full.state.btime, codes, LastMoveOf(codes),
                        game.initialTime, game.increment);
      selectedSquare, pendingMove, legalMoves := None, None, [];
    }

    /** `updateGameState`: the session takes the `gameState` event, and the selection is
        cleared. */
    method UpdateGameState(ev: GameStateEvent)
      modifies this`game, this`selectedSquare, this`pendingMove, this`legalMoves
      ensures Valid() && NothingSelected()
      ensures game == GameAfterUpdate(oracle, ev, old(game))
    {
      var codes := ParseMoves(ev.moves);
      var fen := ReplayMoves(oracle, codes);
      var status := game.status;
      var result: Option<string> := None;
      var winner: Option<string> := None;
      var ending := EndOfGame(ev.status, oracle.turn(fen), ev.winner);
      if ending.Some? {
        status := Finished;
        result := Some(ending.value.result);
        winner := ending.value.winner;
      }
      game := game.(fen := fen, turn := oracle.turn(fen), whiteTime := ev.wtime, blackTime := ev.btime,
                    moves := codes, lastMove := LastMoveOf(codes), status := status,
                    result := result, winner := winner);
      selectedSquare, pendingMove, legalMoves := None, None, [];
    }

    /** Whether `selectSquare` acts at all: the game is playing and it is the player's turn. */
    predicate Acts()
      reads this
    {
      game.status == Playing && IsOurTurn(game.turn, game.playerColor)
    }

    /** Whether a click on `square` completes a move: a (non-empty) square is selected and
        `square` is one of its destinations. */
    predicate CompletesMove(square: string)
      reads this
    {
      selectedSquare.Some? && selectedSquare.value != "" && square in legalMoves
    }

    /** `selectSquare`. Outside the player's turn in a playing game nothing changes. A click on
        a destination of the selected square makes it the pending move and clears the
        selection, or changes nothing when the library refuses the move. Any other click on an
        own piece, the selected one included, selects it with its destinations; a click
        anywhere else clears the selection and the pending move. */
    method SelectSquare(square: string)
      requires Valid()
      modifies this`selectedSquare, this`pendingMove, this`legalMoves
      ensures Valid()
      ensures !old(Acts()) ==> selectedSquare == old(selectedSquare) && pendingMove == old(pendingMove)
                               && legalMoves == old(legalMoves)
      ensures old(Acts()) && old(CompletesMove(square)) ==>
                var pm := PendingFor(oracle, game.fen, old(selectedSquare).value, square);
                if pm.Some? then pendingMove == pm && selectedSquare.None? && legalMoves == []
                else selectedSquare == old(selectedSquare) && pendingMove == old(pendingMove)
                     && legalMoves == old(legalMoves)
      ensures old(Acts()) && !old(CompletesMove(square)) ==>
                if OwnPiece(oracle.pieceAt(game.fen, square), game.playerColor)
                then selectedSquare == Some(square) && pendingMove.None?
                     && legalMoves == LegalMovesForSquare(oracle, game.fen, square)
                else NothingSelected()
    {
      if !Acts() {
        return;
      }
      var piece := oracle.pieceAt(game.fen, square);
      if CompletesMove(square) {
        var pm := PendingFor(oracle, game.fen, selectedSquare.value, square);
        if pm.Some? {
          pendingMove, selectedSquare, legalMoves := pm, None, [];
        }
        return;
      }
      if OwnPiece(piece, game.playerColor) {
        selectedSquare, legalMoves, pendingMove := Some(square), LegalMovesForSquare(oracle, game.fen, square), None;
        return;
      }
      selectedSquare, legalMoves, pendingMove := None, [], None;
    }

    /** `clearSelection`. */
    method ClearSelection()
      requires Valid()
      modifies this`selectedSquare, this`pendingMove, this`legalMoves
      ensures Valid() && NothingSelected()
    {
      selectedSquare, pendingMove, legalMoves := None, None, [];
    }

    /** `confirmMove`: without a (non-empty) game id or a pending move nothing happens;
        otherwise the pending move's code is submitted and the pending move is dropped. The
        source clears it on success and on failure of the submission alike, so the outcome of
        the submission does not appear here. Returns the code submitted. */
    method ConfirmMove() returns (submitted: Option<string>)
      requires Valid()
      modifies this`pendingMove
      ensures Valid()
      ensures old(game.gameId).None? || old(game.gameId).value == "" || old(pendingMove).None? ==>
                submitted.None? && pendingMove == old(pendingMove)
      ensures old(game.gameId).Some? && old(game.gameId).value != "" && old(pendingMove).Some? ==>
                submitted == Some(old(pendingMove).value.uci) && pendingMove.None?
    {
      if game.gameId.None? || game.gameId.value == "" || pendingMove.None? {
        return None;
      }
      submitted := Some(pendingMove.value.uci);
      pendingMove := None;
    }

    /** `resign`: the game the resignation is sent for, or nothing without a game id. The store
        itself does not change; the server's next update finishes the game. */
    method Resign() returns (target: Option<string>)
      ensures target.Some? <==> game.gameId.Some? && game.gameId.value != ""
      ensures target.Some? ==> target == game.gameId
    {
      if game.gameId.None? || game.gameId.value == "" {
        return None;
      }
      return game.gameId;
    }

    /** `resetGame`. */
    method ResetGame()
      modifies this`game, this`selectedSquare, this`pendingMove, this`legalMoves
      ensures Valid() && NothingSelected()
      ensures game == InitialGameState
    {
      game := InitialGameState;
      selectedSquare, pendingMove, legalMoves := None, None, [];
    }

    /** `updateClocks`: while playing, the clock of the side to move runs down by `delta`,
        never below zero, and the other clock is untouched; otherwise nothing changes. */
    method UpdateClocks(delta: int)
      requires Valid()
      modifies this`game
      ensures Valid()
      ensures old(game.status) != Playing ==> game == old(game)
      ensures old(game.status) == Playing && old(game.turn) == W ==>
                game == old(game).(whiteTime := CountDown(old(game.whiteTime), delta))
      ensures old(game.status) == Playing && old(game.turn) == B ==>
                game == old(game).(blackTime := CountDown(old(game.blackTime), delta))
    {
      if game.status != Playing {
        return;
      }
      if game.turn == W {
        game := game.(whiteTime := CountDown(game.whiteTime, delta));
      } else {
        game := game.(blackTime := CountDown(game.blackTime, delta));
      }
    }
  }
}
