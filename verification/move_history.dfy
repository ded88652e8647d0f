/** `src/components/MoveHistory.tsx`: the game screen's move list. It turns the server's move
    codes into SAN with a fresh board, groups them into numbered white/black pairs, and reports
    clicks on an entry when it is interactive. */
module MoveHistory {
  import opened Wrappers
  import opened Text
  import opened ChessOracle

  /** Where the conversion stands: the board's position and the labels written so far. */
  datatype History = History(fen: string, sans: seq<string>)

  /** The conversion loop, code by code: a move the library applies is written as its SAN, a
      code it refuses is dropped, and a code it raises on is written as the raw code; in both
      failures the board stays where it was. */
  function HistoryOf(o: Oracle, codes: seq<string>): History
  {
    if |codes| == 0 then History(StartFen, [])
    else
      var h := HistoryOf(o, Init(codes));
      match o.move(h.fen, DecodeUci(Last(codes)))
      case Moved(fen, san) => History(fen, h.sans + [san])
      case NoMove => h
      case Raised => History(h.fen, h.sans + [Last(codes)])
  }

  /** The `sanMoves` loop, with its `try`/`catch`. */
  method SanMoves(o: Oracle, moves: seq<string>) returns (sans: seq<string>)
    ensures sans == HistoryOf(o, moves).sans
  {
    var fen := StartFen;
    sans := [];
    for i := 0 to |moves|
      invariant History(fen, sans) == HistoryOf(o, moves[..i])
    {
      var outcome := o.move(fen, DecodeUci(moves[i]));
      if outcome.Moved? {
        fen := outcome.fen;
        sans := sans + [outcome.san];
      } else if outcome.Raised? {
        sans := sans + [moves[i]];
      }
      assert Init(moves[..i + 1]) == moves[..i];
    }
    assert moves[..|moves|] == moves;
  }

  /** The list's board follows the same tolerant replay as the store, and never writes more
      labels than there are codes. */
  lemma {:induction false} HistoryFollowsReplay(o: Oracle, codes: seq<string>)
    ensures HistoryOf(o, codes).fen == ReplayFen(o, StartFen, codes)
    ensures |HistoryOf(o, codes).sans| <= |codes|
    decreases |codes|
  {
    if |codes| > 0 {
      HistoryFollowsReplay(o, Init(codes));
    }
  }

  /** The label the list writes for the code at index `k` when the library does not refuse
      it: the SAN of the applied move, or the raw code when the library raised. */
  function LabelAt(o: Oracle, codes: seq<string>, k: nat): string
    requires k < |codes|
  {
    if OutcomeAt(o, codes, k).Moved? then OutcomeAt(o, codes, k).san else codes[k]
  }

  lemma LabelAtInit(o: Oracle, codes: seq<string>, k: nat)
    requires k < |codes| - 1
    ensures LabelAt(o, Init(codes), k) == LabelAt(o, codes, k)
    ensures OutcomeAt(o, Init(codes), k) == OutcomeAt(o, codes, k)
  {
    OutcomeAtInit(o, codes, k);
  }

  /** When the library refuses no code (it raises instead, as current releases do), there is
      one label per code, in order: the SAN of each applied move and the raw code of each move
      the library raised on. */
  lemma {:induction false} HistoryOnePerCode(o: Oracle, codes: seq<string>)
    requires forall k :: 0 <= k < |codes| ==> !OutcomeAt(o, codes, k).NoMove?
    ensures |HistoryOf(o, codes).sans| == |codes|
    ensures forall k :: 0 <= k < |codes| ==> HistoryOf(o, codes).sans[k] == LabelAt(o, codes, k)
    decreases |codes|
  {
    if |codes| > 0 {
      var n := |codes| - 1;
      var prev := Init(codes);
      forall k | 0 <= k < n
        ensures !OutcomeAt(o, prev, k).NoMove?
      {
        LabelAtInit(o, codes, k);
      }
      HistoryOnePerCode(o, prev);
      HistoryFollowsReplay(o, prev);
      OutcomeAtLast(o, codes);
      var h := HistoryOf(o, prev);
      var sans := HistoryOf(o, codes).sans;
      assert sans == h.sans + [LabelAt(o, codes, n)];
      forall k | 0 <= k < n
        ensures sans[k] == LabelAt(o, codes, k)
      {
        LabelAtInit(o, codes, k);
      }
    }
  }

  /** One row of the list: its number, the white label and its index, and the black label and
      its index when there is one. */
  datatype MovePair = MovePair(number: nat, white: string, black: Option<string>, whiteIndex: nat, blackIndex: Option<nat>)

  /** Row `k` of the labels `sans`: number `k + 1`, white label at index `2k`, black label at
      index `2k + 1` exactly when the list reaches that far. */
  predicate IsRow(sans: seq<string>, k: nat, p: MovePair)
  {
    && 2 * k < |sans|
    && p.number == k + 1 && p.white == sans[2 * k] && p.whiteIndex == 2 * k
    && (if 2 * k + 1 < |sans| then p.black == Some(sans[2 * k + 1]) && p.blackIndex == Some(2 * k + 1)
        else p.black.None? && p.blackIndex.None?)
  }

  /** The `movePairs` loop: one row per two labels, the last one possibly without black. */
  method MovePairs(sans: seq<string>) returns (pairs: seq<MovePair>)
    ensures |pairs| == (|sans| + 1) / 2
    ensures forall k :: 0 <= k < |pairs| ==> IsRow(sans, k, pairs[k])
  {
    pairs := [];
    var i := 0;
    while i < |sans|
      invariant i == 2 * |pairs| && i <= |sans| + 1
      invariant i < |sans| ==> |pairs| < (|sans| + 1) / 2
      invariant i >= |sans| ==> |pairs| == (|sans| + 1) / 2
      invariant forall k :: 0 <= k < |pairs| ==> IsRow(sans, k, pairs[k])
    {
      var black := if i + 1 < |sans| then Some(sans[i + 1]) else None;
      var blackIndex := if i + 1 < |sans| then Some(i + 1) else None;
      pairs := pairs + [MovePair(i / 2 + 1, sans[i], black, i, blackIndex)];
      i := i + 2;
    }
  }

  /** The labels of the rows read left to right, top to bottom. */
  function Flatten(pairs: seq<MovePair>): seq<string>
  {
    if |pairs| == 0 then []
    else Flatten(Init(pairs)) + [Last(pairs).white] + (if Last(pairs).black.Some? then [Last(pairs).black.value] else [])
  }

  /** Grouping loses and reorders nothing: reading the rows back gives the labels. */
  lemma PairsReadBack(sans: seq<string>, pairs: seq<MovePair>)
    requires |pairs| == (|sans| + 1) / 2
    requires forall k :: 0 <= k < |pairs| ==> IsRow(sans, k, pairs[k])
    ensures Flatten(pairs) == sans
  {
    PairsPrefixReadBack(sans, pairs, |pairs|);
    assert pairs[..|pairs|] == pairs;
    assert sans[..|sans|] == sans;
  }

  lemma {:induction false} PairsPrefixReadBack(sans: seq<string>, pairs: seq<MovePair>, n: nat)
    requires n <= |pairs|
    requires forall k :: 0 <= k < |pairs| ==> IsRow(sans, k, pairs[k])
    ensures 2 * n <= |sans| ==> Flatten(pairs[..n]) == sans[..2 * n]
    ensures 2 * n > |sans| ==> Flatten(pairs[..n]) == sans
  {
    if n > 0 {
      PairsPrefixReadBack(sans, pairs, n - 1);
      assert Init(pairs[..n]) == pairs[..n - 1];
      assert Last(pairs[..n]) == pairs[n - 1];
      assert IsRow(sans, n - 1, pairs[n - 1]);
      if 2 * n <= |sans| {
        assert sans[..2 * n] == sans[..2 * (n - 1)] + [sans[2 * n - 2]] + [sans[2 * n - 1]];
      } else {
        assert sans == sans[..2 * (n - 1)] + [sans[2 * n - 2]];
      }
    }
  }

  /** The list shows a placeholder instead of rows exactly when there are no move codes. */
  datatype HistoryView = Placeholder | Rows(pairs: seq<MovePair>)

  function View(moves: seq<string>, pairs: seq<MovePair>): (v: HistoryView)
    ensures v.Placeholder? <==> |moves| == 0
    ensures v.Rows? ==> v.pairs == pairs
  {
    if |moves| == 0 then Placeholder else Rows(pairs)
  }

  /** The index a click on a row's white (`black` false) or black entry reports: only an
      interactive list reports, only an entry that is shown (a non-empty label) can be clicked,
      and a black click also needs the black index. */
  function ClickTarget(interactive: bool, p: MovePair, black: bool): Option<nat>
  {
    if !interactive then None
    else if !black then (if p.white != "" then Some(p.whiteIndex) else None)
    else if p.black.Some? && p.black.value != "" && p.blackIndex.Some? then Some(p.blackIndex.value)
    else None
  }

  /** A click reports the index of exactly the label that was clicked, and nothing when the
      list is not interactive. */
  lemma ClickReportsShownLabel(sans: seq<string>, k: nat, p: MovePair, interactive: bool, black: bool)
    requires IsRow(sans, k, p)
    ensures !interactive ==> ClickTarget(interactive, p, black).None?
    ensures ClickTarget(interactive, p, black).Some? ==>
              var i := ClickTarget(interactive, p, black).value;
              i < |sans| && sans[i] == (if black then p.black.value else p.white) && sans[i] != ""
    ensures interactive && !black && p.white != "" ==> ClickTarget(interactive, p, black) == Some(2 * k)
    ensures interactive && black && p.black.Some? && p.black.value != "" ==> ClickTarget(interactive, p, black) == Some(2 * k + 1)
  {
  }
}
