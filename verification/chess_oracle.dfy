/** The part of chess.js the client calls, as an oracle: the model never computes chess rules,
    it only states what the client does with the library's answers. A position is its FEN text,
    the only thing the client reads back from a `Chess` object. */
module ChessOracle {
  import opened Wrappers
  import opened Text
  import opened Types

  datatype PieceKind = Pawn | Knight | Bishop | Rook | Queen | King

  datatype Piece = Piece(kind: PieceKind, color: Side)

  /** The argument of `chess.move({ from, to, promotion })`. */
  datatype MoveRequest = MoveRequest(from: string, to: string, promotion: Option<char>)

  /** What `chess.move` does: apply the move and report its SAN, return a falsy value (older
      releases), or raise (newer releases). A raise leaves the position unchanged. */
  datatype MoveOutcome = Moved(fen: string, san: string) | NoMove | Raised

  /** One entry of `chess.moves({ square, verbose: true })`. */
  datatype VerboseMove = VerboseMove(from: string, to: string, san: string)

  /** `chess.board()`: eight ranks (rank 8 first) of eight files (file a first). */
  type Board = b: seq<seq<Option<Piece>>> | |b| == 8 && forall r :: 0 <= r < 8 ==> |b[r]| == 8
    witness seq(8, _ => seq(8, _ => None))

  datatype Oracle = Oracle(
    pieceAt: (string, string) -> Option<Piece>,
    movesFrom: (string, string) -> seq<VerboseMove>,
    move: (string, MoveRequest) -> MoveOutcome,
    turn: string -> Side,
    isCheckmate: string -> bool,
    isStalemate: string -> bool,
    inCheck: string -> bool,
    board: string -> Board)

  /** The position of `new Chess()`. */
  const StartFen: string := "rnbqkbnr/pppppppp/8/8/8/8/PPPPPPPP/RNBQKBNR w KQkq - 0 1"

  /** How every call site reads a UCI move code: `from` = characters 0-1, `to` = characters 2-3
      (`slice` clamps short codes), and a promotion piece only when the code is longer than 4. */
  function DecodeUci(uci: string): MoveRequest
  {
    MoveRequest(Slice(uci, 0, 2), Slice(uci, 2, 4), if |uci| > 4 then Some(uci[4]) else None)
  }

  /** The code the store sends for a move: `from + to + (promotion || '')`. */
  function EncodeUci(m: MoveRequest): string
  {
    m.from + m.to + (if m.promotion.Some? then [m.promotion.value] else "")
  }

  /** A move between two-character squares survives encoding and decoding. */
  lemma DecodeEncode(m: MoveRequest)
    requires |m.from| == 2 && |m.to| == 2
    ensures DecodeUci(EncodeUci(m)) == m
  {
    var u := EncodeUci(m);
    assert u[0..2] == m.from;
    assert u[2..4] == m.to;
  }

  /** A four- or five-character code survives decoding and encoding. */
  lemma EncodeDecode(uci: string)
    requires |uci| == 4 || |uci| == 5
    ensures EncodeUci(DecodeUci(uci)) == uci
  {
    if |uci| == 5 {
      assert uci == uci[0..2] + uci[2..4] + [uci[4]];
    } else {
      assert uci == uci[0..2] + uci[2..4];
    }
  }

  /** One step of a replay that swallows the library's failures, as the store's and the move
      list's `try`/`catch` loops do: a refused or raising move leaves the position as it was. */
  function StepTolerant(o: Oracle, fen: string, uci: string): string
  {
    match o.move(fen, DecodeUci(uci))
    case Moved(next, _) => next
    case _ => fen
  }

  /** Replaying move codes from a position, skipping every code the library refuses. */
  function ReplayFen(o: Oracle, fen: string, codes: seq<string>): string
  {
    if |codes| == 0 then fen else StepTolerant(o, ReplayFen(o, fen, Init(codes)), Last(codes))
  }

  /** Replaying a concatenation is replaying the second part from where the first ends. */
  lemma {:induction false} ReplayAppend(o: Oracle, fen: string, a: seq<string>, b: seq<string>)
    ensures ReplayFen(o, fen, a + b) == ReplayFen(o, ReplayFen(o, fen, a), b)
    decreases |b|
  {
    if |b| > 0 {
      assert Init(a + b) == a + Init(b);
      assert Last(a + b) == Last(b);
      ReplayAppend(o, fen, a, Init(b));
    } else {
      assert a + b == a;
    }
  }

  /** A code the library refuses at the position it is reached in changes nothing: the replay
      equals the replay of the list without it. */
  lemma ReplaySkipsRefused(o: Oracle, fen: string, codes: seq<string>, k: nat)
    requires k < |codes|
    requires !o.move(ReplayFen(o, fen, codes[..k]), DecodeUci(codes[k])).Moved?
    ensures ReplayFen(o, fen, codes) == ReplayFen(o, fen, codes[..k] + codes[k + 1..])
  {
    var before := codes[..k];
    var after := codes[k + 1..];
    assert codes == before + [codes[k]] + after;
    ReplayAppend(o, fen, before + [codes[k]], after);
    ReplayAppend(o, fen, before, after);
    assert Init(before + [codes[k]]) == before;
  }

  /** The codes of a list that the library actually applies during a tolerant replay. */
  function AppliedCodes(o: Oracle, fen: string, codes: seq<string>): seq<string>
  {
    if |codes| == 0 then []
    else
      var prev := AppliedCodes(o, fen, Init(codes));
      if o.move(ReplayFen(o, fen, Init(codes)), DecodeUci(Last(codes))).Moved? then prev + [Last(codes)] else prev
  }

  /** Skipping is all a tolerant replay does with refused codes: replaying only the applied
      codes reaches the same position. */
  lemma {:induction false} ReplayOnlyApplied(o: Oracle, fen: string, codes: seq<string>)
    ensures ReplayFen(o, fen, AppliedCodes(o, fen, codes)) == ReplayFen(o, fen, codes)
    decreases |codes|
  {
    if |codes| > 0 {
      var prev := AppliedCodes(o, fen, Init(codes));
      ReplayOnlyApplied(o, fen, Init(codes));
      if o.move(ReplayFen(o, fen, Init(codes)), DecodeUci(Last(codes))).Moved? {
        assert Init(prev + [Last(codes)]) == prev;
      }
    }
  }

  /** What the library does with the code at index `k`, at the position the replay of the
      codes before it reaches. */
  function OutcomeAt(o: Oracle, moves: seq<string>, k: nat): MoveOutcome
    requires k < |moves|
  {
    o.move(ReplayFen(o, StartFen, moves[..k]), DecodeUci(moves[k]))
  }

  /** The library raises on some code of the list, at the position the replay reaches it in. */
  predicate SomeRaises(o: Oracle, moves: seq<string>)
  {
    exists k :: 0 <= k < |moves| && OutcomeAt(o, moves, k).Raised?
  }

  /** Extending a list leaves the outcomes of its codes unchanged. */
  lemma OutcomeAtInit(o: Oracle, moves: seq<string>, k: nat)
    requires k < |moves| - 1
    ensures OutcomeAt(o, Init(moves), k) == OutcomeAt(o, moves, k)
  {
    assert moves[..k] == Init(moves)[..k];
  }

  lemma OutcomeAtLast(o: Oracle, moves: seq<string>)
    requires |moves| > 0
    ensures OutcomeAt(o, moves, |moves| - 1) == o.move(ReplayFen(o, StartFen, Init(moves)), DecodeUci(Last(moves)))
  {
  }

  /** Raising somewhere in a non-empty list is raising in its first part or on its last code. */
  lemma SomeRaisesStep(o: Oracle, moves: seq<string>)
    requires |moves| > 0
    ensures SomeRaises(o, moves) <==>
              SomeRaises(o, Init(moves)) || o.move(ReplayFen(o, StartFen, Init(moves)), DecodeUci(Last(moves))).Raised?
  {
    var n := |moves| - 1;
    OutcomeAtLast(o, moves);
    if SomeRaises(o, moves) {
      var k :| 0 <= k < |moves| && OutcomeAt(o, moves, k).Raised?;
      if k < n {
        OutcomeAtInit(o, moves, k);
      }
    }
    if SomeRaises(o, Init(moves)) {
      var k :| 0 <= k < n && OutcomeAt(o, Init(moves), k).Raised?;
      OutcomeAtInit(o, moves, k);
    }
  }

  /** A replay that does not catch the library's exceptions, as the review screen's
      display replay does: `None` when the library raises on some code; a refused code is
      skipped. */
  function StrictReplay(o: Oracle, codes: seq<string>): Option<string>
  {
    if |codes| == 0 then Some(StartFen)
    else match StrictReplay(o, Init(codes))
      case None => None
      case Some(fen) =>
        match o.move(fen, DecodeUci(Last(codes)))
        case Raised => None
        case NoMove => Some(fen)
        case Moved(next, _) => Some(next)
  }

  /** The strict replay fails exactly when the library raises on some code, and otherwise
      reaches the same position as the tolerant one. */
  lemma {:induction false} StrictReplayAgrees(o: Oracle, codes: seq<string>)
    ensures StrictReplay(o, codes).None? <==> SomeRaises(o, codes)
    ensures StrictReplay(o, codes).Some? ==> StrictReplay(o, codes).value == ReplayFen(o, StartFen, codes)
    decreases |codes|
  {
    if |codes| > 0 {
      StrictReplayAgrees(o, Init(codes));
      SomeRaisesStep(o, codes);
    }
  }
}
