/** `src/utils/chess.ts`: the helpers around the rules library — legal destinations, the game
    result, UCI to SAN, clock formatting and the king-square scan. */
module ChessUtils {
  import opened Wrappers
  import opened Text
  import opened Types
  import opened ChessOracle

  /** `getLegalMovesForSquare`: the destination of every library move from `square`, in the
      library's order. */
  function LegalMovesForSquare(o: Oracle, fen: string, square: string): (dests: seq<string>)
    ensures |dests| == |o.movesFrom(fen, square)|
    ensures forall i :: 0 <= i < |dests| ==> dests[i] == o.movesFrom(fen, square)[i].to
    ensures forall d :: d in dests <==> exists m :: m in o.movesFrom(fen, square) && m.to == d
  {
    var ms := o.movesFrom(fen, square);
    var dests := seq(|ms|, i requires 0 <= i < |ms| => ms[i].to);
    assert forall d :: (exists m :: m in ms && m.to == d) ==> d in dests by {
      forall d, m | m in ms && m.to == d ensures d in dests {
        var i :| 0 <= i < |ms| && ms[i] == m;
        assert dests[i] == d;
      }
    }
    dests
  }

  /** `isInCheck`. */
  predicate IsInCheck(o: Oracle, fen: string)
  {
    o.inCheck(fen)
  }

  datatype GameResult = Checkmate | Stalemate | StillPlaying

  /** `getGameResult`: checkmate takes precedence over stalemate. */
  function GetGameResult(o: Oracle, fen: string): (r: GameResult)
    ensures r == Checkmate <==> o.isCheckmate(fen)
    ensures r == Stalemate <==> !o.isCheckmate(fen) && o.isStalemate(fen)
    ensures r == StillPlaying <==> !o.isCheckmate(fen) && !o.isStalemate(fen)
  {
    if o.isCheckmate(fen) then Checkmate
    else if o.isStalemate(fen) then Stalemate
    else StillPlaying
  }

  /** `uciToSan`. `None` is the library's exception, which this helper does not catch. */
  function UciToSan(o: Oracle, fen: string, uci: string): (r: Option<string>)
    ensures r.None? <==> o.move(fen, DecodeUci(uci)).Raised?
    ensures r == Some(uci) <== o.move(fen, DecodeUci(uci)).NoMove?
    ensures o.move(fen, DecodeUci(uci)).Moved? ==> r == Some(o.move(fen, DecodeUci(uci)).san)
  {
    match o.move(fen, DecodeUci(uci))
    case Moved(_, san) => Some(san)
    case NoMove => Some(uci)
    case Raised => None
  }

  /** `padStart(2, '0')`. */
  function PadStart2(s: string): (r: string)
    ensures |s| >= 2 ==> r == s
    ensures |s| < 2 ==> |r| == 2 && r[2 - |s|..] == s && forall i :: 0 <= i < 2 - |s| ==> r[i] == '0'
  {
    if |s| >= 2 then s else seq(2 - |s|, _ => '0') + s
  }

  /** `formatTime`: `S.t` (seconds and tenths) below 20 seconds, `M:SS` from there on;
      a negative time shows as zero. */
  function FormatTime(ms: int): string
  {
    var t: nat := if ms < 0 then 0 else ms;
    var totalSeconds := t / 1000;
    var tenths := (t % 1000) / 100;
    if t < 20000 then NatToString(totalSeconds) + "." + NatToString(tenths)
    else NatToString(totalSeconds / 60) + ":" + PadStart2(NatToString(totalSeconds % 60))
  }

  /** Reads a clock text back to milliseconds: `M:SS` with two second digits below 60, or
      `S.t` with one tenth digit. The independent reading that `FormatTime` is checked against. */
  function ReadClock(s: string): Option<int>
  {
    var byColon := Split(s, ':');
    if |byColon| == 2 then
      match (ParseNat(byColon[0]), ParseNat(byColon[1]))
      case (Some(m), Some(sec)) => if |byColon[1]| == 2 && sec < 60 then Some((m * 60 + sec) * 1000) else None
      case _ => None
    else
      var byDot := Split(s, '.');
      if |byDot| == 2 && |byDot[1]| == 1 then
        match (ParseNat(byDot[0]), ParseNat(byDot[1]))
        case (Some(sec), Some(d)) => Some(sec * 1000 + d * 100)
        case _ => None
      else None
  }

  lemma NoSepInDigits(s: string, sep: char)
    requires forall i :: 0 <= i < |s| ==> IsDigit(s[i])
    requires !IsDigit(sep)
    ensures sep !in s
  {
  }

  /** What a clock shows is the time cut down to tenths below 20 seconds and to whole seconds
      from there on, and a negative time shows as zero. */
  lemma FormatTimeReadsBack(ms: int)
    ensures ReadClock(FormatTime(ms)) ==
            Some(if ms < 0 then 0 else if ms < 20000 then ms - ms % 100 else ms - ms % 1000)
  {
    var t: nat := if ms < 0 then 0 else ms;
    if t < 20000 {
      ShortClockReadsBack(t);
    } else {
      LongClockReadsBack(t);
    }
  }

  lemma TenthsArithmetic(t: nat)
    ensures (t / 1000) * 1000 + ((t % 1000) / 100) * 100 == t - t % 100
  {
    var secs, rem := t / 1000, t % 1000;
    var tenths := rem / 100;
    assert t == secs * 1000 + rem;
    assert rem == tenths * 100 + rem % 100;
    assert t == (secs * 10 + tenths) * 100 + rem % 100;
    assert t % 100 == rem % 100;
  }

  lemma ShortClockReadsBack(t: nat)
    requires t < 20000
    ensures ReadClock(FormatTime(t)) == Some(t - t % 100)
  {
    var secs := t / 1000;
    var tenths := (t % 1000) / 100;
    var out := FormatTime(t);
    var a, b := NatToString(secs), NatToString(tenths);
    assert out == a + ['.'] + b;
    NoSepInDigits(a, ':');
    NoSepInDigits(b, ':');
    NoSepInDigits(a, '.');
    NoSepInDigits(b, '.');
    assert ':' !in out;
    SplitNoSep(out, ':');
    SplitPair(a, b, '.');
    ParseNatToString(secs);
    ParseNatToString(tenths);
    TenthsArithmetic(t);
  }

  lemma LongClockReadsBack(t: nat)
    requires t >= 20000
    ensures ReadClock(FormatTime(t)) == Some(t - t % 1000)
  {
    var secs := t / 1000;
    var m, sec := secs / 60, secs % 60;
    var out := FormatTime(t);
    var a, b := NatToString(m), PadStart2(NatToString(sec));
    assert out == a + [':'] + b;
    ParseNatToString(m);
    ParseNatToString(sec);
    NoSepInDigits(a, ':');
    assert forall i :: 0 <= i < |b| ==> IsDigit(b[i]);
    NoSepInDigits(b, ':');
    SplitPair(a, b, ':');
    if sec < 10 {
      assert b == ['0', DigitChar(sec)];
      assert Init(b) == ['0'];
      assert DigitsValue(b) == sec;
    }
    assert ParseNat(b) == Some(sec);
    assert (m * 60 + sec) * 1000 == secs * 1000;
  }

  /** Reads a square name back to its board cell. */
  function ParseSquare(s: string): Option<(nat, nat)>
  {
    if |s| == 2 && 'a' <= s[0] <= 'h' && '1' <= s[1] <= '8'
    then Some((8 - (s[1] as int - 48), s[0] as int - 97))
    else None
  }

  /** The name of board cell (`row`, `col`): file `chr(97 + col)` then rank `8 - row`; it is
      two characters long and reads back to the same cell, so no two cells share a name. */
  function SquareName(row: nat, col: nat): (name: string)
    requires row < 8 && col < 8
    ensures |name| == 2
    ensures ParseSquare(name) == Some((row, col))
  {
    [(97 + col) as char] + NatToString(8 - row)
  }

  predicate IsKingOf(p: Option<Piece>, color: Side)
  {
    p.Some? && p.value.kind == King && p.value.color == color
  }

  /** No king of `color` stands before cell (`row`, `col`) in row-major order. */
  predicate NoKingBefore(board: Board, color: Side, row: int, col: int)
  {
    forall r, c :: 0 <= r < 8 && 0 <= c < 8 && (r < row || (r == row && c < col)) ==> !IsKingOf(board[r][c], color)
  }

  /** `getKingSquare`: scans the library's board of `fen`, rows 0..7 and, in each, columns 0..7,
      and names the first king of `color`; `None` when there is none. */
  method GetKingSquare(o: Oracle, fen: string, color: Side) returns (square: Option<string>)
    ensures square.None? <==> NoKingBefore(o.board(fen), color, 8, 0)
    ensures square.Some? ==> exists r, c :: 0 <= r < 8 && 0 <= c < 8 && IsKingOf(o.board(fen)[r][c], color)
                                      && NoKingBefore(o.board(fen), color, r, c) && square.value == SquareName(r, c)
  {
    var board := o.board(fen);
    for row := 0 to 8
      invariant NoKingBefore(board, color, row, 0)
    {
      for col := 0 to 8
        invariant NoKingBefore(board, color, row, col)
      {
        if IsKingOf(board[row][col], color) {
          return Some(SquareName(row, col));
        }
      }
    }
    return None;
  }
}
