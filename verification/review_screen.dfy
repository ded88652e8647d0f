/** `src/screens/ReviewScreen.tsx`: the post-game review. It shows the result heading, a board
    that steps through the finished game's moves with a cursor, and the moves in numbered pairs
    with the justification recorded for each. */
module ReviewScreen {
  import opened Wrappers
  import opened Text
  import opened Types
  import opened ChessOracle
  import opened MoveHistory
  import opened JustificationStore
  import GameStore

  /** The memo's SAN loop, which has no `try`: a move the library applies is written as its
      SAN, a refused code is dropped, and a raise aborts the whole screen (`None`). */
  function StrictHistory(o: Oracle, codes: seq<string>): Option<History>
  {
    if |codes| == 0 then Some(History(StartFen, []))
    else match StrictHistory(o, Init(codes))
      case None => None
      case Some(h) =>
        match o.move(h.fen, DecodeUci(Last(codes)))
        case Raised => None
        case NoMove => Some(h)
        case Moved(fen, san) => Some(History(fen, h.sans + [san]))
  }

  /** The review's SAN list fails exactly when the library raises on some code, and then agrees
      with the strict replay's position. */
  lemma {:induction false} StrictHistoryReplay(o: Oracle, codes: seq<string>)
    ensures StrictHistory(o, codes).None? <==> SomeRaises(o, codes)
    ensures StrictHistory(o, codes).Some? ==> StrictHistory(o, codes).value.fen == ReplayFen(o, StartFen, codes)
    decreases |codes|
  {
    if |codes| > 0 {
      StrictHistoryReplay(o, Init(codes));
      SomeRaisesStep(o, codes);
    }
  }

  /** When it does not fail, the review's list is the game screen's list. */
  lemma {:induction false} ReviewListIsGameList(o: Oracle, codes: seq<string>)
    ensures StrictHistory(o, codes).Some? ==> StrictHistory(o, codes).value == HistoryOf(o, codes)
    decreases |codes|
  {
    if |codes| > 0 {
      ReviewListIsGameList(o, Init(codes));
    }
  }

  /** The SANs of the export's written moves. */
  function EntrySans(entries: seq<PgnMove>): (sans: seq<string>)
    ensures |sans| == |entries|
    ensures forall k :: 0 <= k < |entries| ==> sans[k] == entries[k].san
  {
    seq(|entries|, k requires 0 <= k < |entries| => entries[k].san)
  }

  /** The review lists exactly the moves the PGN export writes: both fail together, and
      otherwise they hold the same SANs in the same order. */
  lemma {:induction false} ReviewListIsExportList(o: Oracle, js: seq<Justification>, codes: seq<string>, c: Color)
    ensures StrictHistory(o, codes).None? <==> ExportMoves(o, js, codes, c).None?
    ensures StrictHistory(o, codes).Some? ==>
              StrictHistory(o, codes).value.fen == ExportMoves(o, js, codes, c).value.fen
              && StrictHistory(o, codes).value.sans == EntrySans(ExportMoves(o, js, codes, c).value.entries)
    decreases |codes|
  {
    if |codes| > 0 {
      ReviewListIsExportList(o, js, Init(codes), c);
      var st := ExportMoves(o, js, Init(codes), c);
      if st.Some? {
        var es := st.value.entries;
        var h := StrictHistory(o, Init(codes)).value;
        var outcome := o.move(h.fen, DecodeUci(Last(codes)));
        if outcome.Moved? {
          var e := PgnMove(|codes| - 1, outcome.san, CommentFor(js, |codes| - 1, Last(codes), outcome.san, c));
          assert EntrySans(es + [e]) == EntrySans(es) + [outcome.san];
        }
      }
    }
  }

  /** A prefix of a list on which the library raises nowhere raises nowhere either. */
  lemma NoRaiseInPrefix(o: Oracle, codes: seq<string>, n: nat)
    requires n <= |codes|
    requires !SomeRaises(o, codes)
    ensures !SomeRaises(o, codes[..n])
  {
    forall k | 0 <= k < n
      ensures !OutcomeAt(o, codes[..n], k).Raised?
    {
      assert codes[..n][..k] == codes[..k];
      assert !OutcomeAt(o, codes, k).Raised?;
    }
  }

  /** The justification shown for the entry at index `i`: looked up with the `i`-th SAN of the
      review's list, the `i`-th move code, and move number `floor(i / 2) + 1`. */
  function JustificationForMove(js: seq<Justification>, sans: seq<string>, moves: seq<string>, i: nat): Option<Justification>
    requires i < |sans| && i < |moves|
  {
    FindJustification(js, moves[i], i / 2 + 1, sans[i])
  }

  /** When the library applies every code, the entry at index `i` is the `i`-th move, and the
      review looks up the same justification as the PGN export does for that move. */
  lemma ReviewLookupMatchesExport(o: Oracle, js: seq<Justification>, moves: seq<string>, i: nat)
    requires forall k :: 0 <= k < |moves| ==> OutcomeAt(o, moves, k).Moved?
    requires i < |moves|
    ensures StrictHistory(o, moves).Some?
    ensures var sans := StrictHistory(o, moves).value.sans;
            |sans| == |moves| && sans[i] == OutcomeAt(o, moves, i).san
            && JustificationForMove(js, sans, moves, i) == FindJustification(js, moves[i], i / 2 + 1, OutcomeAt(o, moves, i).san)
  {
    StrictHistoryReplay(o, moves);
    ReviewListIsGameList(o, moves);
    HistoryOnePerCode(o, moves);
    assert LabelAt(o, moves, i) == OutcomeAt(o, moves, i).san;
  }

  /** One entry of a review row: its SAN, its index, and the text of its justification. */
  datatype ReviewEntry = ReviewEntry(san: string, index: nat, justification: Option<string>)

  datatype ReviewPair = ReviewPair(number: nat, white: ReviewEntry, black: Option<ReviewEntry>)

  function EntryAt(js: seq<Justification>, sans: seq<string>, moves: seq<string>, i: nat): ReviewEntry
    requires i < |sans| && i < |moves|
  {
    var j := JustificationForMove(js, sans, moves, i);
    ReviewEntry(sans[i], i, if j.Some? then Some(j.value.text) else None)
  }

  /** Row `k` of the review: number `k + 1`, the white entry at index `2k`, and the black entry
      at index `2k + 1` only when that SAN exists and is not empty. */
  predicate IsReviewRow(js: seq<Justification>, sans: seq<string>, moves: seq<string>, k: nat, p: ReviewPair)
    requires |sans| <= |moves|
  {
    && 2 * k < |sans|
    && p.number == k + 1 && p.white == EntryAt(js, sans, moves, 2 * k)
    && p.black == (if 2 * k + 1 < |sans| && sans[2 * k + 1] != "" then Some(EntryAt(js, sans, moves, 2 * k + 1)) else None)
  }

  /** The review's `movePairs` loop. */
  method ReviewPairs(js: seq<Justification>, sans: seq<string>, moves: seq<string>) returns (pairs: seq<ReviewPair>)
    requires |sans| <= |moves|
    ensures |pairs| == (|sans| + 1) / 2
    ensures forall k :: 0 <= k < |pairs| ==> IsReviewRow(js, sans, moves, k, pairs[k])
  {
    pairs := [];
    var i := 0;
    while i < |sans|
      invariant i == 2 * |pairs| && i <= |sans| + 1
      invariant i < |sans| ==> |pairs| < (|sans| + 1) / 2
      invariant i >= |sans| ==> |pairs| == (|sans| + 1) / 2
      invariant forall k :: 0 <= k < |pairs| ==> IsReviewRow(js, sans, moves, k, pairs[k])
    {
      var whiteJust := JustificationForMove(js, sans, moves, i);
      var hasBlack := i + 1 < |sans| && sans[i + 1] != "";
      var blackJust := if hasBlack then JustificationForMove(js, sans, moves, i + 1) else None;
      var white := ReviewEntry(sans[i], i, if whiteJust.Some? then Some(whiteJust.value.text) else None);
      var black := if hasBlack then Some(ReviewEntry(sans[i + 1], i + 1, if blackJust.Some? then Some(blackJust.value.text) else None)) else None;
      pairs := pairs + [ReviewPair(i / 2 + 1, white, black)];
      i := i + 2;
    }
  }

  /** A justification shown in the review is the text of a recorded justification that
      matches the entry's code, or its move number and SAN. */
  lemma ShownJustificationIsRecorded(js: seq<Justification>, sans: seq<string>, moves: seq<string>, i: nat)
    requires i < |sans| && i < |moves|
    ensures EntryAt(js, sans, moves, i).justification.Some? ==>
              exists j :: j in js && j.text == EntryAt(js, sans, moves, i).justification.value
                          && Matches(j, moves[i], i / 2 + 1, sans[i])
    ensures EntryAt(js, sans, moves, i).justification.None? ==>
              forall j :: j in js ==> !Matches(j, moves[i], i / 2 + 1, sans[i])
  {
    var found := FindJustification(js, moves[i], i / 2 + 1, sans[i]);
    if found.Some? {
      var k :| 0 <= k < |js| && js[k] == found.value && Matches(js[k], moves[i], i / 2 + 1, sans[i]);
      assert js[k] in js;
    }
  }

  /** The heading's colour. */
  datatype HeadingColor = Amber | Emerald | Red

  /** Whether the server's winner is the player's colour. */
  predicate PlayerWon(winner: Option<string>, c: Color)
  {
    (winner == Some("white") && c == White) || (winner == Some("black") && c == Black)
  }

  predicate PlayerLost(winner: Option<string>, c: Color)
  {
    (winner == Some("white") && c == Black) || (winner == Some("black") && c == White)
  }

  /** `getResultText`: "Game Over" without a result, else the result in lower case after
      "Draw by", "Victory by" (with "!") or "Defeat by", or the result itself when the winner is
      none of those. */
  function ResultText(result: Option<string>, winner: Option<string>, c: Color): (text: string)
    ensures result.None? || result == Some("") ==> text == "Game Over"
    ensures result.Some? && result.value != "" && ResultColor(winner, c) == Amber ==>
              |text| == 8 + |result.value| && text[..8] == "Draw by " && text[8..] == Lower(result.value)
    ensures result.Some? && result.value != "" && ResultColor(winner, c) == Emerald ==>
              |text| == 12 + |result.value| && text[..11] == "Victory by "
              && text[11..|text| - 1] == Lower(result.value) && text[|text| - 1] == '!'
    ensures result.Some? && result.value != "" && PlayerLost(winner, c) ==>
              |text| == 10 + |result.value| && text[..10] == "Defeat by " && text[10..] == Lower(result.value)
    ensures result.Some? && result.value != "" && ResultColor(winner, c) == Red && !PlayerLost(winner, c) ==>
              text == result.value
  {
    if result.None? || result.value == "" then "Game Over"
    else
      var r := result.value;
      if winner == Some("draw") then "Draw by " + Lower(r)
      else if PlayerWon(winner, c) then "Victory by " + Lower(r) + "!"
      else if PlayerLost(winner, c) then "Defeat by " + Lower(r)
      else r
  }

  /** `getResultColor`: amber for a draw, green when the player won, red otherwise. */
  function ResultColor(winner: Option<string>, c: Color): (color: HeadingColor)
    ensures color == Amber <==> winner == Some("draw")
    ensures color == Emerald <==> PlayerWon(winner, c)
    ensures color == Red <==> winner != Some("draw") && !PlayerWon(winner, c)
  {
    if winner == Some("draw") then Amber
    else if PlayerWon(winner, c) then Emerald
    else Red
  }

  lemma LowerCheckmate()
    ensures Lower("Checkmate") == "checkmate"
  {
    var r := Lower("Checkmate");
    assert r[0] == 'c';
    assert forall i :: 1 <= i < 9 ==> r[i] == "Checkmate"[i];
  }

  /** How a mate recorded by the store reads in the review: the checkmated player sees a red
      "Defeat by checkmate", the other a green "Victory by checkmate!". */
  lemma MateHeading(turnAfter: Side, c: Color, eventWinner: Option<string>)
    ensures var e := GameStore.EndOfGame("mate", turnAfter, eventWinner).value;
            && (GameStore.IsOurTurn(turnAfter, c) ==>
                  ResultText(Some(e.result), e.winner, c) == "Defeat by checkmate" && ResultColor(e.winner, c) == Red)
            && (!GameStore.IsOurTurn(turnAfter, c) ==>
                  ResultText(Some(e.result), e.winner, c) == "Victory by checkmate!" && ResultColor(e.winner, c) == Emerald)
  {
    var e := GameStore.EndOfGame("mate", turnAfter, eventWinner).value;
    assert e.result == "Checkmate";
    if GameStore.IsOurTurn(turnAfter, c) {
      MateDefeat(e.winner, c);
    } else {
      MateVictory(e.winner, c);
    }
  }

  lemma MateDefeat(winner: Option<string>, c: Color)
    requires PlayerLost(winner, c)
    ensures ResultText(Some("Checkmate"), winner, c) == "Defeat by checkmate" && ResultColor(winner, c) == Red
  {
    LowerCheckmate();
    assert ResultText(Some("Checkmate"), winner, c) == "Defeat by " + Lower("Checkmate");
  }

  lemma MateVictory(winner: Option<string>, c: Color)
    requires PlayerWon(winner, c)
    ensures ResultText(Some("Checkmate"), winner, c) == "Victory by checkmate!" && ResultColor(winner, c) == Emerald
  {
    LowerCheckmate();
    assert ResultText(Some("Checkmate"), winner, c) == "Victory by " + Lower("Checkmate") + "!";
  }

  /** A stalemate or a draw recorded by the store reads as an amber draw for either player. */
  lemma DrawHeading(code: string, turnAfter: Side, c: Color, eventWinner: Option<string>)
    requires code == "stalemate" || code == "draw"
    ensures var e := GameStore.EndOfGame(code, turnAfter, eventWinner).value;
            ResultText(Some(e.result), e.winner, c) == "Draw by " + Lower(e.result) && ResultColor(e.winner, c) == Amber
  {
  }

  /** A resignation reads by the server's winner, whoever is to move: the player whose colour
      the server names as winner sees a green victory. */
  lemma ResignationHeading(turnAfter: Side, c: Color)
    ensures var e := GameStore.EndOfGame("resign", turnAfter, Some(if c == White then "white" else "black")).value;
            ResultText(Some(e.result), e.winner, c) == "Victory by " + Lower("Resignation") + "!"
            && ResultColor(e.winner, c) == Emerald
  {
  }

  /** The review's cursor: how many of the game's moves the board shows. */
  class Review {
    const moves: seq<string>
    var cursor: nat

    ghost predicate Valid()
      reads this
    {
      cursor <= |moves|
    }

    /** The review opens at the end of the game. */
    constructor(moves: seq<string>)
      ensures this.moves == moves && cursor == |moves| && Valid()
    {
      this.moves := moves;
      cursor := |moves|;
    }

    method GoToStart()
      requires Valid()
      modifies this`cursor
      ensures Valid() && cursor == 0
    {
      cursor := 0;
    }

    /** `Math.max(0, currentMoveIndex - 1)`. */
    method GoToPrev()
      requires Valid()
      modifies this`cursor
      ensures Valid()
      ensures old(cursor) > 0 ==> cursor == old(cursor) - 1
      ensures old(cursor) == 0 ==> cursor == 0
    {
      cursor := if cursor > 0 then cursor - 1 else 0;
    }

    /** `Math.min(moves.length, currentMoveIndex + 1)`. */
    method GoToNext()
      requires Valid()
      modifies this`cursor
      ensures Valid()
      ensures old(cursor) < |moves| ==> cursor == old(cursor) + 1
      ensures old(cursor) == |moves| ==> cursor == |moves|
    {
      cursor := if cursor + 1 < |moves| then cursor + 1 else |moves|;
    }

    method GoToEnd()
      requires Valid()
      modifies this`cursor
      ensures Valid() && cursor == |moves|
    {
      cursor := |moves|;
    }

    /** Whether the entry at `index` is highlighted: the board shows exactly the moves up to it. */
    predicate Highlighted(index: nat)
      reads this
    {
      cursor == index + 1
    }

    /** A click on an entry shows the position after it, and highlights it. */
    method SelectEntry(index: nat)
      requires Valid() && index < |moves|
      modifies this`cursor
      ensures Valid() && cursor == index + 1 && Highlighted(index)
    {
      cursor := index + 1;
    }

    /** The memo: the SAN list of every move, then the position after the first `cursor`
        moves on a fresh board, neither loop catching the library's exceptions. */
    method Memo(o: Oracle) returns (r: Option<(string, seq<string>)>)
      requires Valid()
      ensures r.None? <==> SomeRaises(o, moves)
      ensures r.Some? ==> r.value.0 == ReplayFen(o, StartFen, moves[..cursor])
                          && StrictHistory(o, moves).Some? && r.value.1 == StrictHistory(o, moves).value.sans
    {
      var fen := StartFen;
      var sans: seq<string> := [];
      StrictHistoryReplay(o, moves);
      for i := 0 to |moves|
        invariant StrictHistory(o, moves[..i]) == Some(History(fen, sans))
      {
        var outcome := o.move(fen, DecodeUci(moves[i]));
        assert Init(moves[..i + 1]) == moves[..i];
        if outcome.Raised? {
          assert StrictHistory(o, moves[..i + 1]).None?;
          StrictHistoryReplay(o, moves[..i + 1]);
          PrefixRaises(o, moves, i + 1);
          return None;
        }
        if outcome.Moved? {
          fen := outcome.fen;
          sans := sans + [outcome.san];
        }
      }
      assert moves[..|moves|] == moves;
      NoRaiseInPrefix(o, moves, cursor);
      var position := DisplayPosition(o, moves[..cursor]);
      StrictReplayAgrees(o, moves[..cursor]);
      return Some((position.value, sans));
    }
  }

  /** A list raises somewhere when one of its prefixes does. */
  lemma PrefixRaises(o: Oracle, codes: seq<string>, n: nat)
    requires n <= |codes|
    requires SomeRaises(o, codes[..n])
    ensures SomeRaises(o, codes)
  {
    var k :| 0 <= k < n && OutcomeAt(o, codes[..n], k).Raised?;
    assert codes[..n][..k] == codes[..k];
    assert OutcomeAt(o, codes, k).Raised?;
  }

  /** The display loop: the first `cursor` codes on a fresh board, without `try`. */
  method DisplayPosition(o: Oracle, codes: seq<string>) returns (fen: Option<string>)
    ensures fen == StrictReplay(o, codes)
  {
    var at := StartFen;
    for i := 0 to |codes|
      invariant StrictReplay(o, codes[..i]) == Some(at)
    {
      var outcome := o.move(at, DecodeUci(codes[i]));
      assert Init(codes[..i + 1]) == codes[..i];
      if outcome.Raised? {
        assert StrictReplay(o, codes[..i + 1]).None?;
        StrictReplayNoneSticks(o, codes, i + 1);
        return None;
      }
      if outcome.Moved? {
        at := outcome.fen;
      }
    }
    assert codes[..|codes|] == codes;
    return Some(at);
  }

  /** Once the strict replay of a prefix fails, the replay of the whole list fails. */
  lemma StrictReplayNoneSticks(o: Oracle, codes: seq<string>, n: nat)
    requires n <= |codes|
    requires StrictReplay(o, codes[..n]).None?
    ensures StrictReplay(o, codes).None?
  {
    StrictReplayAgrees(o, codes[..n]);
    PrefixRaises(o, codes, n);
    StrictReplayAgrees(o, codes);
  }
}
