/** The shapes of `src/types/index.ts`: the game state the store exposes, the pending move, the
    justification record and the events of the Lichess board API. */
module Types {
  import opened Wrappers

  /** The side to move as chess.js reports it (`'w' | 'b'`); also the colour of a piece. */
  datatype Side = W | B

  /** The player's colour (`'white' | 'black'`). */
  datatype Color = White | Black

  datatype Status = Idle | Seeking | Playing | Finished

  datatype LastMove = LastMove(from: string, to: string)

  /** `GameState`. `winner` is kept as the text the store writes (`"white"`, `"black"`,
      `"draw"`) because resignations and time-outs copy the server's value verbatim. */
  datatype GameState = GameState(
    gameId: Option<string>,
    fen: string,
    turn: Side,
    playerColor: Color,
    opponentName: string,
    opponentRating: int,
    status: Status,
    result: Option<string>,
    winner: Option<string>,
    whiteTime: int,
    blackTime: int,
    moves: seq<string>,
    lastMove: Option<LastMove>,
    initialTime: int,
    increment: int)

  datatype PendingMove = PendingMove(from: string, to: string, san: string, uci: string, promotion: Option<char>)

  datatype Justification = Justification(moveNumber: int, move: string, uci: string, text: string, timestamp: int, fen: string)

  /** A player of a `gameFull` record; an absent `name` is the empty string. */
  datatype LichessPlayer = LichessPlayer(id: string, name: string, rating: Option<int>)

  /** The body of a `gameState` record; an absent `moves` field is the empty string. */
  datatype GameStateEvent = GameStateEvent(moves: string, wtime: int, btime: int, status: string, winner: Option<string>)

  /** `LichessEvent`, decoded once by its `type` tag. */
  datatype LichessEvent =
    | GameFull(id: string, white: LichessPlayer, black: LichessPlayer, initialFen: string, state: GameStateEvent)
    | GameStateUpdate(update: GameStateEvent)
    | GameStart(gameId: string)
    | OtherEvent(kind: string)

  datatype LichessUser = LichessUser(id: string, username: string, rating: int, title: Option<string>)
}
