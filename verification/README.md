# ThinkChess core in Dafny

ThinkChess is a desktop client for playing rapid and classical games on Lichess. In it, every
move must be explained before it is sent. The player selects a piece and then a destination,
which gives a *pending move*. The move goes to the server only after the player has typed a
justification of 10 to 280 characters. After the game, a review screen replays the moves with
their justifications, and the game can be exported as PGN with the justifications as comments.

This project models the core of that client and proves properties of the model:

- the game store: seeking, starting and updating a game from server events, selecting squares,
  confirming and resigning, the clock countdown;
- the justification store and its PGN export;
- the chess helpers;
- the newline-delimited JSON streaming of the Lichess client;
- the move list;
- the justification input;
- the game and review screens;
- the screen switch of the application.

The chess rules come from the chess.js library, which is not part of this model. The library is
the value `ChessOracle.Oracle`, a record of total functions:

- the piece on a square;
- the legal moves from a square;
- the side to move;
- checkmate, stalemate and check;
- the board as an 8x8 grid;
- `move`, which has three outcomes: the move is applied (new FEN and SAN), the library returns
  `null` (`NoMove`), or the library throws (`Raised`).

Call sites that wrap `move` in `try`/`catch` replay tolerantly (`ReplayFen`). These are the
store's replay and the move list. Call sites without one replay strictly (`StrictReplay`). These
are the review screen, the PGN export and `uciToSan`.

The modules are:

| module | file | models |
|---|---|---|
| `Wrappers`, `Text` | `text.dfy` | Option and Result; JavaScript's `split`, `join`, `trim`, `slice`, `toLowerCase`, number printing |
| `Types` | `types.dfy` | the records of `src/types/index.ts` |
| `ChessOracle` | `chess_oracle.dfy` | chess.js; UCI decoding; tolerant and strict replay |
| `ChessUtils` | `chess_utils.dfy` | `src/utils/chess.ts` |
| `GameStore` | `game_store.dfy` | `src/stores/gameStore.ts` (class `Store`) |
| `Lichess` | `lichess.dfy` | `src/services/lichess.ts` |
| `JustificationStore` | `justification_store.dfy` | `src/stores/justificationStore.ts` (class `Justifications`) |
| `JustificationInput` | `justification_input.dfy` | `src/components/JustificationInput.tsx` |
| `MoveHistory` | `move_history.dfy` | `src/components/MoveHistory.tsx` |
| `ReviewScreen` | `review_screen.dfy` | `src/screens/ReviewScreen.tsx` (class `Review`) |
| `GameScreen` | `game_screen.dfy` | `src/screens/GameScreen.tsx` (class `Screen`) |
| `App` | `app.dfy` | `src/App.tsx` (class `Application`) |

The model follows the code, including these behaviours a reader may not expect:

- Clicking one's own piece while a piece is selected selects the new piece. This is the case
  even when the new piece is the one already selected.
- A `gameState` event with a non-terminal status resets `result` and `winner` to null.
- At the end of a stream, an unterminated last line is dropped. It is never parsed.
- `confirmMove` does not check whose turn it is. Only selection is turn-guarded.
- `initializeGame` ignores the `initialFen` of `gameFull`. It always replays from the standard
  starting position.
- The review screen numbers its SAN list by position. When the library returns `null` for a
  move, a later SAN is looked up with the wrong move index. With chess.js 1.x, `move` throws
  instead, so this cannot happen there.
- The review's "home" button goes to the lobby, not to the home screen.
- The `(N left)` hint shows above 252 characters, because `280 * 0.9` is exactly 252.

## Model

| member | source | states |
|---|---|---|
| ChessOracle.DecodeEncode | src/stores/gameStore.ts:78-87 | decoding the UCI text of a move (from, to, optional promotion) gives the move back |
| ChessOracle.EncodeDecode | src/stores/gameStore.ts:78-87 | a 4- or 5-character code is the UCI text of its own decoding |
| ChessOracle.ReplayAppend | src/stores/gameStore.ts:78-87 | tolerant replay of `a + b` is replay of `b` from where replay of `a` ends |
| ChessOracle.ReplaySkipsRefused | src/stores/gameStore.ts:78-87 | a code the library refuses or throws on leaves the replayed position as if it were absent |
| ChessOracle.ReplayOnlyApplied | src/stores/gameStore.ts:78-87 | replaying only the codes that were applied gives the same position as replaying all of them |
| ChessOracle.StrictReplayAgrees | src/screens/ReviewScreen.tsx:34-41 | a replay without `try` fails exactly when some code makes the library throw; otherwise it ends where the tolerant replay ends |
| ChessUtils.LegalMovesForSquare | src/utils/chess.ts:3-7 | the destinations of the square's legal moves, one per move, in the library's order |
| ChessUtils.GetGameResult | src/utils/chess.ts:14-19 | checkmate before stalemate; "playing" exactly when neither holds |
| ChessUtils.UciToSan | src/utils/chess.ts:21-29 | None exactly when the library throws; the code itself when it returns null; the SAN otherwise |
| ChessUtils.PadStart2 | src/utils/chess.ts:31-45 | a string shorter than 2 is left-padded with `0` to length 2; longer ones are unchanged |
| ChessUtils.FormatTimeReadsBack | src/utils/chess.ts:31-45 | reading the clock text back gives the time rounded down to tenths under 20 s and to seconds from 20 s; negatives show as 0 |
| ChessUtils.SquareName | src/utils/chess.ts:47-62 | the name of a board cell has two characters and parses back to that cell |
| ChessUtils.GetKingSquare | src/utils/chess.ts:47-62 | None exactly when the side has no king on the board; otherwise the first king in row-major order |
| GameStore.NonEmpty | src/stores/gameStore.ts:76 | every kept piece is non-empty, and a piece is kept exactly when it is a non-empty piece of the input |
| GameStore.NonEmptySingle | src/stores/gameStore.ts:76 | a single piece is kept exactly when it is not empty |
| GameStore.NonEmptyAppend | src/stores/gameStore.ts:76 | filtering a concatenation concatenates the filtered parts, so order and repetitions are kept |
| GameStore.ParseMoves | src/stores/gameStore.ts:76 | every code is non-empty and contains no space; the empty string has no codes |
| GameStore.ParseMovesJoin | src/stores/gameStore.ts:76 | splitting the space-joined codes gives the codes back |
| GameStore.ParseMovesPieces | src/stores/gameStore.ts:76 | a code is parsed exactly when it is a non-empty space-separated piece |
| GameStore.LastMoveOf | src/stores/gameStore.ts:89-92 | no last move exactly when there are no codes; otherwise the squares of the last code |
| GameStore.EndOfGame | src/stores/gameStore.ts:140-163 | an ending exactly for the terminal statuses, with the result name and winner of each |
| GameStore.MateWinnerIsNotToMove | src/stores/gameStore.ts:144-146 | after mate, the winner is the side that is not to move |
| GameStore.PromotionFor | src/stores/gameStore.ts:197-202 | a queen promotion exactly for a pawn reaching the last rank of its colour |
| GameStore.PendingFor | src/stores/gameStore.ts:204-219 | a pending move exactly when the library applies the move; it then carries that move's SAN and UCI |
| GameStore.PendingRoundTrip | src/stores/gameStore.ts:204-219 | a pending move's UCI decodes to its squares, converts to its SAN and replays to its position |
| GameStore.RatingOr1500 | src/stores/gameStore.ts:100 | the opponent's rating, or 1500 when it is missing or zero |
| GameStore.CountDown | src/stores/gameStore.ts:290-299 | the time minus the elapsed time, never below zero |
| GameStore.CountDownNotUp | src/stores/gameStore.ts:290-299 | a countdown never raises a clock |
| GameStore.ReplayMoves | src/stores/gameStore.ts:78-87 | the loop ends at the tolerant replay of the codes |
| GameStore.FullGameStarts | src/stores/gameStore.ts:69-113 | a `gameFull` event starts play: the server's id and moves, the replayed position and turn, colour from the ids ignoring case, no result, time control kept |
| GameStore.UpdateFinishesOnTerminal | src/stores/gameStore.ts:115-180 | a `gameState` event finishes the game exactly on a terminal status and otherwise keeps the status; result exactly when terminal; moves, position and clocks follow the server; game identity unchanged |
| GameStore.Store.constructor | src/stores/gameStore.ts:26-42 | the initial state, with nothing selected |
| GameStore.Store.SeekGame | src/stores/gameStore.ts:51-63 | seeking with the chosen time control, back to idle when the seek fails |
| GameStore.Store.CancelSeek | src/stores/gameStore.ts:65-67 | back to idle, nothing else changed |
| GameStore.Store.InitializeGame | src/stores/gameStore.ts:69-113 | the new game state is the `gameFull` state; the selection is cleared |
| GameStore.Store.UpdateGameState | src/stores/gameStore.ts:115-180 | the new game state is the `gameState` update; the selection is cleared |
| GameStore.Store.SelectSquare | src/stores/gameStore.ts:182-246 | nothing happens unless playing and on our turn; a selected piece plus a legal destination gives a pending move; an own piece becomes selected with its destinations; any other square clears |
| GameStore.Store.ClearSelection | src/stores/gameStore.ts:248-254 | nothing selected, no pending move, no destinations |
| GameStore.Store.ConfirmMove | src/stores/gameStore.ts:256-267 | with a game id and a pending move, the move's UCI is submitted and the pending move cleared; otherwise nothing changes |
| GameStore.Store.Resign | src/stores/gameStore.ts:269-278 | the game is resigned exactly when it has a non-empty id |
| GameStore.Store.ResetGame | src/stores/gameStore.ts:280-288 | back to the initial state with nothing selected |
| GameStore.Store.UpdateClocks | src/stores/gameStore.ts:290-299 | only the clock of the side to move counts down, and only while playing |
| Lichess.CompleteLines | src/services/lichess.ts:132-134 | the complete lines contain no newline and, with the unfinished tail, join back to everything received |
| Lichess.LineEvents | src/services/lichess.ts:136-146 | a line gives one event exactly when its trimmed text is non-empty and parses |
| Lichess.EventsOfAppend | src/services/lichess.ts:136-146 | events of consecutive lines are the concatenation of their events |
| Lichess.EventsOfSound | src/services/lichess.ts:136-146 | every delivered event is the parse of some non-blank line |
| Lichess.FramingStep | src/services/lichess.ts:122-147 | adding a chunk to the buffer delivers exactly the events of the newly completed lines and keeps the new tail |
| Lichess.Reported | src/services/lichess.ts:148-152 | an abort is never reported; any other error reports its message |
| Lichess.LeadingChunks | src/services/lichess.ts:125-130 | counts the reads that deliver data before the stream ends or fails |
| Lichess.Connect | src/services/lichess.ts:97-160 | a failed fetch, a non-OK status and a missing body each report their error with no events; otherwise the events of the complete lines read |
| Lichess.DeliverLines | src/services/lichess.ts:136-146 | the loop delivers the events of the lines in order |
| Lichess.ReadBody | src/services/lichess.ts:122-152 | the events of the complete lines of all chunks read, and the error that stopped the reading |
| Lichess.CompleteTwoLines | src/services/lichess.ts:132-134 | a line followed by a partial one yields the line; two lines yield both |
| Lichess.PlainLineEvents | src/services/lichess.ts:136-146 | a line with no surrounding blanks is parsed as it stands |
| Lichess.TwoChunkShape | src/services/lichess.ts:122-147 | a line split across two chunks is delivered once, after the second chunk |
| Lichess.TwoChunkExample | src/services/lichess.ts:122-147 | the chunks `{"type":"a"}\n{"ty` then `pe":"b"}\n` deliver `a` and then `a, b` |
| Lichess.StreamHandle.constructor | src/services/lichess.ts:157-159 | a new stream is not aborted |
| Lichess.StreamHandle.Cancel | src/services/lichess.ts:157-159 | the cleanup aborts the stream |
| Lichess.AccountRating | src/services/lichess.ts:36 | the first truthy rating among rapid, blitz, classical, else 1500 |
| Lichess.AccountRatingIsARating | src/services/lichess.ts:36 | the rating is never zero and is one of the account's ratings or 1500 |
| Lichess.AccountFrom | src/services/lichess.ts:18-39 | 401 is an invalid token, any other non-2xx status an error naming it, 2xx the user with its rating |
| Lichess.LichessApi.constructor | src/services/lichess.ts:8-10 | no token at first |
| Lichess.LichessApi.SetToken | src/services/lichess.ts:8-10 | the token is the one given |
| Lichess.LichessApi.AuthorizationHeader | src/services/lichess.ts:12-16 | the `Bearer ` prefix followed by the token, and nothing else |
| JustificationStore.FindJustification | src/stores/justificationStore.ts:67-75 | the first justification matching by UCI, or by move number and SAN; None exactly when none matches |
| JustificationStore.CommentFor | src/stores/justificationStore.ts:67-75 | a comment only on the player's own moves, and exactly when a justification matches |
| JustificationStore.ExportMovesReplay | src/stores/justificationStore.ts:47-78 | the export fails exactly when some move makes the library throw; otherwise it ends at the replayed position with one entry per applied move |
| JustificationStore.ExportMovesIndexed | src/stores/justificationStore.ts:47-78 | entries are in move order, each with the SAN the library gave, and commented only on the player's moves |
| JustificationStore.ExportAllApplied | src/stores/justificationStore.ts:47-78 | when every move applies, there is one entry per move at its own index |
| JustificationStore.ExportMovesNext | src/stores/justificationStore.ts:47-78 | one loop step: a throw aborts, null skips, an applied move adds its entry |
| JustificationStore.ExportAbortSticks | src/stores/justificationStore.ts:47-78 | once a prefix fails, the whole export fails |
| JustificationStore.MoveNumberIndication | src/stores/justificationStore.ts:57-65 | `N. ` before white's moves, nothing before black's |
| JustificationStore.CommentText | src/stores/justificationStore.ts:67-75 | a comment is written as `{ text }` after the move |
| JustificationStore.RenderAll | src/stores/justificationStore.ts:47-78 | one rendered text per entry, in order |
| JustificationStore.ResultMarker | src/stores/justificationStore.ts:80-88 | the marker as written: decisive results go against the side to move, draws are `1/2-1/2`, no result is `*` |
| JustificationStore.WinnerMarker | src/stores/justificationStore.ts:80-88 | `1-0`, `0-1` or `1/2-1/2` exactly for a white, black or drawn winner |
| JustificationStore.CorrectedResultMarker | src/stores/justificationStore.ts:80-88 | the marker of the recorded winner, or `*` without a result |
| JustificationStore.CorrectedMarkerAgrees | src/stores/justificationStore.ts:80-88 | the corrected marker equals the written one for mate, draw and stalemate and for a timeout of the side to move |
| JustificationStore.ResignationMarkerDisagrees | src/stores/justificationStore.ts:82-84 | white resigning with black to move is recorded as a win for black, yet written `1-0` |
| JustificationStore.MateMarkerAgreesWithStore | src/stores/justificationStore.ts:80-88 | after mate, the written marker names the winner the store recorded |
| JustificationStore.PgnText | src/stores/justificationStore.ts:90-101 | the seven tag pairs with the date and the result, a blank line, the movetext entries joined by single spaces, then a space and the result marker |
| JustificationStore.FormatMove | src/stores/justificationStore.ts:57-75 | the move number, the SAN and the player's comment of one move |
| JustificationStore.Justifications.constructor | src/stores/justificationStore.ts:17-19 | no justifications, empty text |
| JustificationStore.Justifications.SetCurrentText | src/stores/justificationStore.ts:21-23 | the text is the one given |
| JustificationStore.Justifications.AddJustification | src/stores/justificationStore.ts:25-34 | the justification is appended with its time stamp; the text box is emptied |
| JustificationStore.Justifications.ClearJustifications | src/stores/justificationStore.ts:36-38 | no justifications, empty text |
| JustificationStore.Justifications.ExportPgn | src/stores/justificationStore.ts:40-104 | no PGN exactly when the replay throws; otherwise the PGN text of the rendered entries under the winner's marker |
| JustificationInput.Truncate | src/components/JustificationInput.tsx:44 | a prefix of the input of at most 280 characters, the input itself when it fits |
| JustificationInput.TruncateIdempotent | src/components/JustificationInput.tsx:44 | cutting twice is cutting once |
| JustificationInput.TruncatedValidity | src/components/JustificationInput.tsx:23-24 | a cut value is valid exactly when the input had at least 10 characters |
| JustificationInput.HandleKeyDown | src/components/JustificationInput.tsx:26-33 | Enter without Shift prevents the newline, and submits exactly when the text is valid and the box enabled |
| JustificationInput.EnterMatchesButton | src/components/JustificationInput.tsx:26-33 | Enter submits exactly when the button is enabled; Shift+Enter never submits |
| JustificationInput.RemainingHint | src/components/JustificationInput.tsx:61-62 | the hint shows exactly above 252 characters, with the characters left |
| JustificationInput.HintBounds | src/components/JustificationInput.tsx:61-62 | on a cut value the hint is between 0 and 27 |
| MoveHistory.SanMoves | src/components/MoveHistory.tsx:15-30 | the loop gives the labels of the tolerant conversion |
| MoveHistory.HistoryFollowsReplay | src/components/MoveHistory.tsx:15-30 | the conversion's board follows the store's replay; never more labels than codes |
| MoveHistory.HistoryOnePerCode | src/components/MoveHistory.tsx:15-30 | when the library never returns null, one label per code: the SAN, or the raw code where the library threw |
| MoveHistory.MovePairs | src/components/MoveHistory.tsx:33-43 | one numbered row per two labels, black present exactly when the list reaches it |
| MoveHistory.PairsReadBack | src/components/MoveHistory.tsx:33-43 | reading the rows back gives the labels in order |
| MoveHistory.View | src/components/MoveHistory.tsx:55-61 | the placeholder shows exactly when there are no moves |
| MoveHistory.ClickReportsShownLabel | src/components/MoveHistory.tsx:71-87 | a click reports the index of the label clicked, only when the list is interactive |
| ReviewScreen.StrictHistoryReplay | src/screens/ReviewScreen.tsx:22-32 | the review's SAN loop fails exactly when some move throws; otherwise it ends at the replayed position |
| ReviewScreen.ReviewListIsGameList | src/screens/ReviewScreen.tsx:22-32 | when it succeeds, the review's SAN list is the move list's |
| ReviewScreen.ReviewListIsExportList | src/screens/ReviewScreen.tsx:22-32 | the review's SAN list fails together with the export and otherwise lists the export's SANs |
| ReviewScreen.ReviewLookupMatchesExport | src/screens/ReviewScreen.tsx:77-85 | when every move applies, the review finds for each move the justification the export finds |
| ReviewScreen.ReviewPairs | src/screens/ReviewScreen.tsx:99-116 | one row per two SANs, each entry with its index and justification, black exactly when present and non-empty |
| ReviewScreen.ShownJustificationIsRecorded | src/screens/ReviewScreen.tsx:77-85 | a shown justification is a recorded one that matches the move; none is shown only when none matches |
| ReviewScreen.ResultText | src/screens/ReviewScreen.tsx:46-61 | "Game Over" without a result; an amber heading reads "Draw by " and the lower-case result, an emerald one "Victory by " and the lower-case result with "!", a lost game "Defeat by " and the lower-case result; a red heading for no loss shows the bare result |
| ReviewScreen.ResultColor | src/screens/ReviewScreen.tsx:63-70 | amber exactly for a draw, emerald exactly for a win, red otherwise |
| ReviewScreen.MateHeading | src/screens/ReviewScreen.tsx:46-70 | the mated player reads "Defeat by checkmate" in red, the other "Victory by checkmate!" in emerald |
| ReviewScreen.MateDefeat | src/screens/ReviewScreen.tsx:46-70 | a player who lost by checkmate reads "Defeat by checkmate" in red |
| ReviewScreen.MateVictory | src/screens/ReviewScreen.tsx:46-70 | a player who won by checkmate reads "Victory by checkmate!" in emerald |
| ReviewScreen.DrawHeading | src/screens/ReviewScreen.tsx:46-70 | a stalemate or draw reads "Draw by ..." in amber for both players |
| ReviewScreen.ResignationHeading | src/screens/ReviewScreen.tsx:46-70 | the winner of a resignation reads "Victory by resignation!" in emerald |
| ReviewScreen.Review.constructor | src/screens/ReviewScreen.tsx:16 | the review opens at the last position |
| ReviewScreen.Review.GoToStart | src/screens/ReviewScreen.tsx:72 | the cursor goes to the start |
| ReviewScreen.Review.GoToPrev | src/screens/ReviewScreen.tsx:73 | one step back, not below 0 |
| ReviewScreen.Review.GoToNext | src/screens/ReviewScreen.tsx:74 | one step forward, not past the last move |
| ReviewScreen.Review.GoToEnd | src/screens/ReviewScreen.tsx:75 | the cursor goes to the last position |
| ReviewScreen.Review.SelectEntry | src/screens/ReviewScreen.tsx:220-234 | clicking move `i` shows the position after it and highlights it |
| ReviewScreen.Review.Memo | src/screens/ReviewScreen.tsx:18-44 | fails exactly when some move throws; otherwise the position at the cursor and the full SAN list |
| ReviewScreen.DisplayPosition | src/screens/ReviewScreen.tsx:34-41 | the display loop is the strict replay |
| ReviewScreen.StrictReplayNoneSticks | src/screens/ReviewScreen.tsx:34-41 | once a prefix throws, the replay throws |
| GameScreen.PlayerTurnIsStoreTurn | src/screens/GameScreen.tsx:169 | the screen's turn test is the store's |
| GameScreen.PlayerTime | src/screens/GameScreen.tsx:167 | the clock of the player's colour |
| GameScreen.OpponentTime | src/screens/GameScreen.tsx:168 | the clock of the other colour |
| GameScreen.ActiveClocks | src/screens/GameScreen.tsx:185-214 | a clock is active exactly when its side is to move and the game is playing |
| GameScreen.ActiveClockIsTicking | src/screens/GameScreen.tsx:185-214 | never both clocks at once, and the active one is the one that counts down |
| GameScreen.SubmittedJustificationIsFound | src/screens/GameScreen.tsx:112-126 | a submitted justification is found again for its move |
| GameScreen.Screen.constructor | src/screens/GameScreen.tsx:44-46 | no stream, no confirmation, clock stopped |
| GameScreen.Screen.Mount | src/screens/GameScreen.tsx:49-52 | the event stream opens only for a signed-in user |
| GameScreen.Screen.OnAccountEventAsWritten | src/screens/GameScreen.tsx:54-71 | a `gameStart` opens a game stream and overwrites the reference to the previous one |
| GameScreen.Screen.OnAccountEvent | src/screens/GameScreen.tsx:54-71 | a `gameStart` cancels the previous game stream and opens a new one; only the latest stays live |
| GameScreen.Screen.OnGameEvent | src/screens/GameScreen.tsx:60-66 | `gameFull` initialises and `gameState` updates the store; other events change nothing |
| GameScreen.Screen.Teardown | src/screens/GameScreen.tsx:78-81 | the cleanup aborts the event stream and the referenced game stream |
| GameScreen.Screen.TeardownStopsAll | src/screens/GameScreen.tsx:78-81 | with the corrected handler, the cleanup leaves no stream live |
| GameScreen.Screen.SyncClock | src/screens/GameScreen.tsx:84-96 | the clock runs exactly while the game is playing |
| GameScreen.Screen.Tick | src/screens/GameScreen.tsx:84-96 | a tick takes 100 ms off the clock of the side to move |
| GameScreen.Screen.HandleSquareClick | src/screens/GameScreen.tsx:107-110 | clicks are ignored while a move is pending; otherwise the click has exactly the effect of the store's square selection |
| GameScreen.Screen.HandleJustificationSubmit | src/screens/GameScreen.tsx:112-126 | without a pending move or with under 10 characters nothing happens; otherwise the justification is recorded under the move number, and the move is submitted exactly when the game has a non-empty id, the pending move staying otherwise |
| GameScreen.Screen.HandleResign | src/screens/GameScreen.tsx:128-135 | the first press asks for confirmation; the second resigns and closes it |
| GameScreen.Screen.CancelResign | src/screens/GameScreen.tsx:283 | the confirmation closes |
| GameScreen.Screen.CheckedKing | src/screens/GameScreen.tsx:156-161 | the king of the side to move is highlighted only when in check |
| GameScreen.TwoGamesLeakAsWritten | src/screens/GameScreen.tsx:58 | with the handler as written, the first of two games' streams is never aborted |
| GameScreen.TwoGamesCorrected | src/screens/GameScreen.tsx:78-81 | with the corrected handler, both games' streams are aborted by the cleanup |
| App.ScreenFor | src/App.tsx:17-27 | home exactly when not connected; then review, game or lobby from the game's status |
| App.Render | src/App.tsx:45-56 | each screen value renders its own screen |
| App.GameFullShowsGame | src/App.tsx:17-27 | a started game shows the game screen |
| App.UpdateShowsReviewOnTerminal | src/App.tsx:17-27 | a terminal update shows the review; a non-terminal one keeps a playing game on the game screen |
| App.Application.constructor | src/App.tsx:11 | the application opens on the home screen |
| App.Application.SyncScreen | src/App.tsx:17-27 | the screen follows the connection and the status |
| App.Application.OnGameStart | src/App.tsx:29-31 | the game screen |
| App.Application.OnGameEnd | src/App.tsx:33-35 | the review screen |
| App.Application.OnNewGame | src/App.tsx:37-39 | the lobby |
| App.Application.OnHome | src/App.tsx:41-43 | the lobby, not the home screen |

## Left out

- The network is not modelled. A fetch is a value (`Fetch`): an error, or a response with status, `ok` flag and body flag. The body is the sequence of its reads (`ReadStep`).
- `AbortController` is modelled only as the `aborted` flag of a `StreamHandle`.
- The bytes-to-text decoding (`TextDecoder`) is not modelled: chunks arrive as text.
- `JSON.parse` is the parameter `parse`. An exception thrown by `onEvent` is swallowed as invalid JSON in the source; that is not modelled.
- The HTTP calls `createSeek`, `makeMove`, `resign` and `abort` are left out; a submitted move or resignation is the code or game id a method returns. A seek failure is the parameter `seekFailed`. The floating-point division in the seek's time control is left out. `abort` is not called by any of the modelled files.
- Whether a move submission succeeds is not modelled: `confirmMove` clears the pending move after the call whether it succeeded or failed.
- Timers are not modelled. `setInterval` is one `Tick`; the 2-second delay before the review is `Application.OnGameEnd`.
- React effect scheduling and the interleaving of asynchronous callbacks are not modelled; each handler runs to completion.
- Rendering is left out: JSX, the board component, `Clock.tsx`, the home and lobby screens, square styles other than the checked king, and the move list's auto-scroll.
- The Electron shell, the connection store and token storage are left out (`electron/main.ts`, `electron/preload.ts`, `src/utils/electron.ts` and `src/stores/connectionStore.ts` are not part of this model).
- `Date.now()` is the parameter `now`. The PGN date is the parameter `date`.
- The clipboard write and the alert after export are left out.
- String lengths are counted in characters, not UTF-16 code units. `toLowerCase` is modelled for ASCII letters only.
- The chess rules themselves are the oracle's. Nothing is proved about legality, SAN or FEN beyond what the oracle returns.
- `Lichess.Connect`: the error passed on is the error's message. The `instanceof Error` distinction of the source is not modelled.
- `GameScreen.Screen.Tick`: one firing of the 100 ms interval. When ticks fire, and the clearing of the interval, are left to the caller through `SyncClock`.
- `JustificationStore.Justifications.ExportPgn`: it takes the winner as well as the result, so that the marker is the corrected one (see Findings). As written, the source derives the marker from the side to move.
- `ReviewScreen.Review.Memo`: when some move throws, the source's render fails; the model returns None.
- The App switch's `default` branch cannot be reached, since the screen type is closed.

## Findings

| source | as written | input that shows it | evidently intended | confidence | as-written member | corrected member |
|---|---|---|---|---|---|---|
| src/stores/justificationStore.ts:82-84 | the marker of a resignation or timeout is chosen by the side to move at the end, as for checkmate | white resigns while black is to move, and the store records winner "black"; the export writes `1-0` | the marker of the recorded winner, `0-1` | high, not executed | JustificationStore.ResignationMarkerDisagrees | JustificationStore.CorrectedMarkerAgrees |
| src/screens/GameScreen.tsx:58 | each `gameStart` overwrites the only reference to the game stream, so an earlier game's stream is never aborted by the cleanup and keeps updating the store | two `gameStart` events, then unmount | cancel the previous game stream before opening the next | medium, not executed | GameScreen.TwoGamesLeakAsWritten | GameScreen.TwoGamesCorrected |
