/** `src/App.tsx`: which screen the application shows. The screen follows the connection and
    the game's status, and the screens' callbacks move between them. The `switch` over the
    screen renders one screen per value; its `default` branch cannot be reached with the closed
    `ScreenName` type. */
module App {
  import opened Types
  import opened ChessOracle
  import opened GameStore

  datatype ScreenName = Home | Lobby | Game | Review

  /** The effect on `isConnected` and `status`: home while not connected, then review for a
      finished game, the game screen for a playing one, and the lobby otherwise. */
  function ScreenFor(isConnected: bool, status: Status): (s: ScreenName)
    ensures s == Home <==> !isConnected
    ensures s == Review <==> isConnected && status == Finished
    ensures s == Game <==> isConnected && status == Playing
    ensures s == Lobby <==> isConnected && (status == Idle || status == Seeking)
  {
    if !isConnected then Home
    else match status
      case Finished => Review
      case Playing => Game
      case _ => Lobby
  }

  /** The components the `switch` renders. */
  datatype Component = HomeScreen | LobbyScreen | GameScreen | ReviewScreen

  /** The render `switch`: each screen value renders its own screen component, so no two
      values render the same one. */
  function Render(s: ScreenName): (c: Component)
    ensures c == HomeScreen <==> s == Home
    ensures c == LobbyScreen <==> s == Lobby
    ensures c == GameScreen <==> s == Game
    ensures c == ReviewScreen <==> s == Review
  {
    match s
    case Home => HomeScreen
    case Lobby => LobbyScreen
    case Game => GameScreen
    case Review => ReviewScreen
  }

  /** A `gameFull` event takes a connected player to the game screen. */
  lemma GameFullShowsGame(o: Oracle, full: LichessEvent, myUserId: string, prev: GameState)
    requires full.GameFull?
    ensures ScreenFor(true, GameFromFull(o, full, myUserId, prev).status) == Game
  {
    FullGameStarts(o, full, myUserId, prev);
  }

  /** A `gameState` event with a terminal status takes a connected player to the review; one
      with any other status leaves a playing game on the game screen. */
  lemma UpdateShowsReviewOnTerminal(o: Oracle, ev: GameStateEvent, prev: GameState)
    ensures ev.status in EndStatuses ==> ScreenFor(true, GameAfterUpdate(o, ev, prev).status) == Review
    ensures ev.status !in EndStatuses && prev.status == Playing ==>
              ScreenFor(true, GameAfterUpdate(o, ev, prev).status) == Game
  {
    UpdateFinishesOnTerminal(o, ev, prev);
  }

  class Application {
    var screen: ScreenName

    /** The application opens on the home screen. */
    constructor()
      ensures screen == Home
    {
      screen := Home;
    }

    /** The effect that follows the connection and the game's status. */
    method SyncScreen(isConnected: bool, status: Status)
      modifies this`screen
      ensures screen == ScreenFor(isConnected, status)
    {
      if !isConnected {
        screen := Home;
      } else if status == Finished {
        screen := Review;
      } else if status == Playing {
        screen := Game;
      } else {
        screen := Lobby;
      }
    }

    /** `handleGameStart`: the lobby's callback. */
    method OnGameStart()
      modifies this`screen
      ensures screen == Game
    {
      screen := Game;
    }

    /** `handleGameEnd`: the game screen's callback, two seconds after the game finishes. */
    method OnGameEnd()
      modifies this`screen
      ensures screen == Review
    {
      screen := Review;
    }

    /** `handleNewGame`: the review's "new game" button goes to the lobby. */
    method OnNewGame()
      modifies this`screen
      ensures screen == Lobby
    {
      screen := Lobby;
    }

    /** `handleHome`: the review's "home" button also goes to the lobby, not to the home
        screen. */
    method OnHome()
      modifies this`screen
      ensures screen == Lobby
    {
      screen := Lobby;
    }
  }
}
