/** `src/stores/justificationStore.ts`: the log of the player's written justifications and the
    export of the game as Portable Game Notation (PGN): movetext with move numbers (PGN
    section 8.2.2), brace comments (PGN section 5), the game termination marker (PGN section
    8.2.6) and the Seven Tag Roster with its `Result` tag (PGN section 8.1.1). */
module JustificationStore {
  import opened Wrappers
  import opened Text
  import opened Types
  import opened ChessOracle
  import GameStore

  /** `justifications.find(j => j.uci === uci || (j.moveNumber === moveNumber && j.move === san))`. */
  predicate Matches(j: Justification, uci: string, moveNumber: int, san: string)
  {
    j.uci == uci || (j.moveNumber == moveNumber && j.move == san)
  }

  /** The first justification recorded for a move: the first whose code is the move's, or
      whose move number and SAN are the move's; `None` when there is none. */
  function FindJustification(js: seq<Justification>, uci: string, moveNumber: int, san: string): (found: Option<Justification>)
    ensures found.None? <==> forall k :: 0 <= k < |js| ==> !Matches(js[k], uci, moveNumber, san)
    ensures found.Some? ==> exists k :: 0 <= k < |js| && js[k] == found.value && Matches(js[k], uci, moveNumber, san)
                                        && forall l :: 0 <= l < k ==> !Matches(js[l], uci, moveNumber, san)
  {
    if |js| == 0 then None
    else if Matches(js[0], uci, moveNumber, san) then Some(js[0])
    else
      var rest := FindJustification(js[1..], uci, moveNumber, san);
      assert forall k :: 1 <= k < |js| ==> js[k] == js[1..][k - 1];
      if rest.Some? then
        assert exists k :: 0 <= k < |js| && js[k] == rest.value && Matches(js[k], uci, moveNumber, san)
                           && forall l :: 0 <= l < k ==> !Matches(js[l], uci, moveNumber, san) by {
          var k :| 0 <= k < |js[1..]| && js[1..][k] == rest.value && Matches(js[1..][k], uci, moveNumber, san)
                   && forall l :: 0 <= l < k ==> !Matches(js[1..][l], uci, moveNumber, san);
          assert js[k + 1] == rest.value;
          forall l | 0 <= l < k + 1 ensures !Matches(js[l], uci, moveNumber, san) {
            if l > 0 {
              assert js[l] == js[1..][l - 1];
            }
          }
        }
        rest
      else rest
  }

  /** One move of the exported movetext: its index in the game's move list, its SAN and the
      comment attached to it. */
  datatype PgnMove = PgnMove(index: nat, san: string, comment: Option<string>)

  /** The export's running state: the position reached and the moves written so far. */
  datatype Export = Export(fen: string, entries: seq<PgnMove>)

  /** A move is the player's when it has the player's colour: even indices are white's. */
  predicate IsOurIndex(i: nat, c: Color)
  {
    (i % 2 == 0 && c == White) || (i % 2 == 1 && c == Black)
  }

  /** The comment of the move at index `i`: the text of its first justification, for the
      player's own moves only. */
  function CommentFor(js: seq<Justification>, i: nat, uci: string, san: string, c: Color): (comment: Option<string>)
    ensures comment.Some? ==> IsOurIndex(i, c)
    ensures comment.Some? <==> IsOurIndex(i, c) && FindJustification(js, uci, i / 2 + 1, san).Some?
    ensures comment.Some? ==> comment.value == FindJustification(js, uci, i / 2 + 1, san).value.text
  {
    if IsOurIndex(i, c) then
      match FindJustification(js, uci, i / 2 + 1, san)
      case Some(j) => Some(j.text)
      case None => None
    else None
  }

  /** The export's replay of the move list: a code the library refuses is left out of the
      movetext, and one it raises on aborts the export (`None`). A written move keeps its raw
      index. */
  function ExportMoves(o: Oracle, js: seq<Justification>, moves: seq<string>, c: Color): Option<Export>
  {
    if |moves| == 0 then Some(Export(StartFen, []))
    else match ExportMoves(o, js, Init(moves), c)
      case None => None
      case Some(st) =>
        var i, uci := |moves| - 1, Last(moves);
        match o.move(st.fen, DecodeUci(uci))
        case Raised => None
        case NoMove => Some(st)
        case Moved(fen, san) => Some(Export(fen, st.entries + [PgnMove(i, san, CommentFor(js, i, uci, san, c))]))
  }

  /** The export fails exactly when the library raises on some code; otherwise it ends in the
      position the store's replay reaches and writes one move per code the library applies. */
  lemma {:induction false} ExportMovesReplay(o: Oracle, js: seq<Justification>, moves: seq<string>, c: Color)
    ensures ExportMoves(o, js, moves, c).None? <==> SomeRaises(o, moves)
    ensures ExportMoves(o, js, moves, c).Some? ==>
              ExportMoves(o, js, moves, c).value.fen == ReplayFen(o, StartFen, moves)
              && |ExportMoves(o, js, moves, c).value.entries| == |AppliedCodes(o, StartFen, moves)|
    decreases |moves|
  {
    if |moves| > 0 {
      ExportMovesReplay(o, js, Init(moves), c);
      SomeRaisesStep(o, moves);
    }
  }

  /** Every written move is a code of the list at its raw index, which the library applied
      with that SAN at the position the replay reached it in; the indices increase, and only
      the player's own moves carry a comment. */
  lemma {:induction false} ExportMovesIndexed(o: Oracle, js: seq<Justification>, moves: seq<string>, c: Color)
    requires ExportMoves(o, js, moves, c).Some?
    ensures var es := ExportMoves(o, js, moves, c).value.entries;
            && (forall k :: 0 <= k < |es| ==> es[k].index < |moves|)
            && (forall k, l :: 0 <= k < l < |es| ==> es[k].index < es[l].index)
            && (forall k :: 0 <= k < |es| ==>
                  OutcomeAt(o, moves, es[k].index).Moved? && OutcomeAt(o, moves, es[k].index).san == es[k].san)
            && (forall k :: 0 <= k < |es| && es[k].comment.Some? ==> IsOurIndex(es[k].index, c))
    decreases |moves|
  {
    if |moves| > 0 {
      var init := Init(moves);
      ExportMovesIndexed(o, js, init, c);
      ExportMovesReplay(o, js, init, c);
      OutcomeAtLast(o, moves);
      forall m | 0 <= m < |moves| - 1 ensures OutcomeAt(o, init, m) == OutcomeAt(o, moves, m) {
        OutcomeAtInit(o, moves, m);
      }
    }
  }

  /** When the library applies every code, every code is written, in order, at its own index. */
  lemma {:induction false} ExportAllApplied(o: Oracle, js: seq<Justification>, moves: seq<string>, c: Color)
    requires forall k :: 0 <= k < |moves| ==> OutcomeAt(o, moves, k).Moved?
    ensures ExportMoves(o, js, moves, c).Some?
    ensures var es := ExportMoves(o, js, moves, c).value.entries;
            |es| == |moves| && forall k :: 0 <= k < |es| ==> es[k].index == k
    decreases |moves|
  {
    if |moves| > 0 {
      var init := Init(moves);
      forall m | 0 <= m < |moves| - 1 ensures OutcomeAt(o, init, m) == OutcomeAt(o, moves, m) {
        OutcomeAtInit(o, moves, m);
      }
      ExportAllApplied(o, js, init, c);
      ExportMovesReplay(o, js, init, c);
      OutcomeAtLast(o, moves);
    }
  }

  /** One more code of the export's replay. */
  lemma ExportMovesNext(o: Oracle, js: seq<Justification>, moves: seq<string>, c: Color, i: nat, st: Export)
    requires i < |moves| && ExportMoves(o, js, moves[..i], c) == Some(st)
    ensures var outcome := o.move(st.fen, DecodeUci(moves[i]));
            ExportMoves(o, js, moves[..i + 1], c) ==
              if outcome.Raised? then None
              else if outcome.NoMove? then Some(st)
              else Some(Export(outcome.fen, st.entries + [PgnMove(i, outcome.san, CommentFor(js, i, moves[i], outcome.san, c))]))
  {
    assert Init(moves[..i + 1]) == moves[..i] && Last(moves[..i + 1]) == moves[i];
  }

  /** Once a prefix of the list aborts the export, the whole export is aborted. */
  lemma {:induction false} ExportAbortSticks(o: Oracle, js: seq<Justification>, moves: seq<string>, c: Color, n: nat)
    requires n <= |moves| && ExportMoves(o, js, moves[..n], c).None?
    ensures ExportMoves(o, js, moves, c).None?
    decreases |moves|
  {
    if n < |moves| {
      assert Init(moves)[..n] == moves[..n];
      ExportAbortSticks(o, js, Init(moves), c, n);
    } else {
      assert moves[..n] == moves;
    }
  }

  /** The move number indication of a white move (PGN section 8.2.2): `N. ` with N its number. */
  function MoveNumberIndication(i: nat): (s: string)
    ensures i % 2 == 1 ==> s == ""
    ensures i % 2 == 0 ==> s == NatToString(i / 2 + 1) + ". "
  {
    if i % 2 == 0 then NatToString(i / 2 + 1) + ". " else ""
  }

  /** A brace comment (PGN section 5) as the export writes it: ` { text }`. */
  function CommentText(comment: Option<string>): (s: string)
    ensures comment.None? ==> s == ""
    ensures comment.Some? ==> s == " { " + comment.value + " }"
  {
    if comment.Some? then " { " + comment.value + " }" else ""
  }

  /** One movetext entry: a white move is preceded by its number, a black move is bare, and
      the comment follows the SAN. */
  function Render(m: PgnMove): string
  {
    MoveNumberIndication(m.index) + m.san + CommentText(m.comment)
  }

  function RenderAll(ms: seq<PgnMove>): (texts: seq<string>)
    ensures |texts| == |ms|
    ensures forall k :: 0 <= k < |ms| ==> texts[k] == Render(ms[k])
  {
    seq(|ms|, k requires 0 <= k < |ms| => Render(ms[k]))
  }

  /** The game termination markers of PGN section 8.2.6. */
  predicate IsTerminationMarker(s: string)
  {
    s == "1-0" || s == "0-1" || s == "1/2-1/2" || s == "*"
  }

  /** The export's result marker, as written: a checkmate, resignation or time-out is lost by
      the side to move at the end of the replay; a result containing `Draw`, or a stalemate, is
      drawn; no result, an empty one or any other is unfinished. */
  function ResultMarker(result: Option<string>, turnAtEnd: Side): (marker: string)
    ensures IsTerminationMarker(marker)
    ensures result.None? || result.value == "" ==> marker == "*"
    ensures result == Some("Checkmate") || result == Some("Resignation") || result == Some("Time out") ==>
              marker == (if turnAtEnd == W then "0-1" else "1-0")
    ensures result.Some? && result.value !in ["Checkmate", "Resignation", "Time out"] ==>
              (marker == "1/2-1/2" <==> Contains(result.value, "Draw") || result.value == "Stalemate")
    ensures marker == "1/2-1/2" ==> result.Some? && (Contains(result.value, "Draw") || result.value == "Stalemate")
  {
    if result.None? || result.value == "" then "*"
    else if result.value == "Checkmate" || result.value == "Resignation" || result.value == "Time out" then
      if turnAtEnd == W then "0-1" else "1-0"
    else if Contains(result.value, "Draw") || result.value == "Stalemate" then "1/2-1/2"
    else "*"
  }

  /** The marker that names a recorded winner. */
  function WinnerMarker(winner: Option<string>): (marker: string)
    ensures IsTerminationMarker(marker)
    ensures winner == Some("white") <==> marker == "1-0"
    ensures winner == Some("black") <==> marker == "0-1"
    ensures winner == Some("draw") <==> marker == "1/2-1/2"
  {
    if winner == Some("white") then "1-0"
    else if winner == Some("black") then "0-1"
    else if winner == Some("draw") then "1/2-1/2"
    else "*"
  }

  /** Corrected marker: the winner the store recorded for the game's ending, with `*` for a
      game without a result. */
  function CorrectedResultMarker(result: Option<string>, winner: Option<string>): (marker: string)
    ensures IsTerminationMarker(marker)
    ensures result.None? || result.value == "" ==> marker == "*"
    ensures result.Some? && result.value != "" ==> marker == WinnerMarker(winner)
  {
    if result.None? || result.value == "" then "*" else WinnerMarker(winner)
  }

  /** The corrected marker names the store's winner for every ending, and it changes nothing
      where the as-written one was right: mates, draws and stalemates, and time-outs lost by
      the side to move. */
  lemma CorrectedMarkerAgrees(code: string, turnAtEnd: Side, eventWinner: Option<string>)
    requires code in GameStore.EndStatuses && code != "aborted"
    ensures var e := GameStore.EndOfGame(code, turnAtEnd, eventWinner).value;
            && CorrectedResultMarker(Some(e.result), e.winner) == WinnerMarker(e.winner)
            && (code in ["mate", "draw", "stalemate"] ==>
                  CorrectedResultMarker(Some(e.result), e.winner) == ResultMarker(Some(e.result), turnAtEnd))
            && (code in ["timeout", "outoftime"] && eventWinner == Some(GameStore.SideName(GameStore.Opponent(turnAtEnd))) ==>
                  CorrectedResultMarker(Some(e.result), e.winner) == ResultMarker(Some(e.result), turnAtEnd))
  {
    var e := GameStore.EndOfGame(code, turnAtEnd, eventWinner).value;
    if code == "draw" {
      assert OccursAt(e.result, "Draw", 0);
    }
  }

  /** As written, a resignation made while the opponent is to move is exported as a loss for
      the opponent: the player who resigns with black to move (say after their own white
      move) is recorded by the store as the loser, yet the export writes `1-0`. */
  lemma ResignationMarkerDisagrees()
    ensures var e := GameStore.EndOfGame("resign", B, Some("black")).value;
            e.winner == Some("black") && WinnerMarker(e.winner) == "0-1"
            && ResultMarker(Some(e.result), B) == "1-0"
  {
  }

  /** For a mate the exported marker names the winner the store records, since both replay
      the same move list. */
  lemma MateMarkerAgreesWithStore(o: Oracle, js: seq<Justification>, moves: seq<string>, c: Color, w: Option<string>)
    requires ExportMoves(o, js, moves, c).Some?
    ensures ResultMarker(Some("Checkmate"), o.turn(ExportMoves(o, js, moves, c).value.fen))
            == WinnerMarker(GameStore.EndOfGame("mate", o.turn(ReplayFen(o, StartFen, moves)), w).value.winner)
  {
    ExportMovesReplay(o, js, moves, c);
  }

  /** The exported text: the Seven Tag Roster (PGN section 8.1.1) with the marker in its
      `Result` tag, a blank line, then the movetext entries separated by single spaces and
      the same marker. */
  function PgnText(date: string, marker: string, entries: seq<string>): (pgn: string)
    ensures var tags := "[Event \"Thoughtful Chess Game\"]\n[Site \"Lichess.org\"]\n[Date \"" + date
                        + "\"]\n[Round \"?\"]\n[White \"?\"]\n[Black \"?\"]\n";
            var resultTag := "[Result \"" + marker + "\"]";
            |tags| + |resultTag| + 2 + |marker| + 1 <= |pgn| && pgn[..|tags|] == tags
            && OccursAt(pgn, resultTag, |tags|)
            && pgn[|tags| + |resultTag|..|tags| + |resultTag| + 2] == "\n\n"
            && pgn[|tags| + |resultTag| + 2..|pgn| - |marker| - 1] == Join(entries, ' ')
            && pgn[|pgn| - |marker| - 1..] == " " + marker
  {
    var tags := "[Event \"Thoughtful Chess Game\"]\n[Site \"Lichess.org\"]\n[Date \"" + date
                + "\"]\n[Round \"?\"]\n[White \"?\"]\n[Black \"?\"]\n";
    var resultTag := "[Result \"" + marker + "\"]";
    var pgn := tags + resultTag + "\n\n" + Join(entries, ' ') + " " + marker;
    assert pgn[|tags|..|tags| + |resultTag|] == resultTag;
    pgn
  }

  /** The text the export writes for the move at index `i`: `N. SAN` for a white move, the
      bare SAN for a black one, followed by ` { text }` when it is the player's move and a
      justification for it was recorded. */
  method FormatMove(js: seq<Justification>, i: nat, uci: string, san: string, playerColor: Color)
    returns (moveStr: string)
    ensures moveStr == Render(PgnMove(i, san, CommentFor(js, i, uci, san, playerColor)))
  {
    var moveNumber := i / 2 + 1;
    var isWhiteMove := i % 2 == 0;
    if isWhiteMove {
      moveStr := NatToString(moveNumber) + ". " + san;
    } else {
      moveStr := san;
    }
    var isOurMove := (playerColor == White && isWhiteMove) || (playerColor != White && !isWhiteMove);
    if isOurMove {
      var found := FindJustification(js, uci, moveNumber, san);
      if found.Some? {
        moveStr := moveStr + " { " + found.value.text + " }";
      }
    }
  }

  /** The justification log. */
  class Justifications {
    var justifications: seq<Justification>
    var currentText: string

    constructor()
      ensures justifications == [] && currentText == ""
    {
      justifications := [];
      currentText := "";
    }

    /** `setCurrentText`: replaces the draft text only. */
    method SetCurrentText(text: string)
      modifies this`currentText
      ensures currentText == text
    {
      currentText := text;
    }

    /** `addJustification`: appends one record, stamped with `now`, after the earlier ones
        and clears the draft text. */
    method AddJustification(moveNumber: int, move: string, uci: string, text: string, fen: string, now: int)
      modifies this`justifications, this`currentText
      ensures justifications == old(justifications) + [Justification(moveNumber, move, uci, text, now, fen)]
      ensures currentText == ""
    {
      justifications := justifications + [Justification(moveNumber, move, uci, text, now, fen)];
      currentText := "";
    }

    /** `clearJustifications`. */
    method ClearJustifications()
      modifies this`justifications, this`currentText
      ensures justifications == [] && currentText == ""
    {
      justifications := [];
      currentText := "";
    }

    /** `exportPGN`, with the formatted date as a parameter, and with the result marker taken
        from the store's recorded winner (the corrected marker) rather than from the side to
        move. `None` is the library raising on a code, which this function does not catch. */
    method ExportPgn(o: Oracle, moves: seq<string>, result: Option<string>, winner: Option<string>,
                     playerColor: Color, date: string)
      returns (pgn: Option<string>)
      ensures pgn.None? <==> ExportMoves(o, justifications, moves, playerColor).None?
      ensures pgn.Some? ==>
                var st := ExportMoves(o, justifications, moves, playerColor).value;
                pgn.value == PgnText(date, CorrectedResultMarker(result, winner), RenderAll(st.entries))
    {
      var fen := StartFen;
      var pgnMoves: seq<string> := [];
      ghost var entries: seq<PgnMove> := [];
      for i := 0 to |moves|
        invariant ExportMoves(o, justifications, moves[..i], playerColor) == Some(Export(fen, entries))
        invariant pgnMoves == RenderAll(entries)
      {
        var uci := moves[i];
        var outcome := o.move(fen, DecodeUci(uci));
        ExportMovesNext(o, justifications, moves, playerColor, i, Export(fen, entries));
        if outcome.Raised? {
          ExportAbortSticks(o, justifications, moves, playerColor, i + 1);
          return None;
        }
        if outcome.Moved? {
          var moveStr := FormatMove(justifications, i, uci, outcome.san, playerColor);
          var entry := PgnMove(i, outcome.san, CommentFor(justifications, i, uci, outcome.san, playerColor));
          assert RenderAll(entries + [entry]) == RenderAll(entries) + [moveStr];
          entries := entries + [entry];
          pgnMoves := pgnMoves + [moveStr];
          fen := outcome.fen;
        }
      }
      assert moves[..|moves|] == moves;
      pgn := Some(PgnText(date, CorrectedResultMarker(result, winner), pgnMoves));
    }
  }
}
