/** `src/services/lichess.ts`: the Lichess client. The streaming endpoints deliver
    newline-delimited JSON in arbitrary chunks; the client frames the chunks into lines,
    trims them, skips blank and unparseable ones, and reports connection failures except
    cancellations. The JSON parser is a parameter `parse`, returning `None` where
    `JSON.parse` raises. */
module Lichess {
  import opened Wrappers
  import opened Text
  import opened Types

  /** The lines of `received` that a newline has completed: every piece of the split but the
      last, which is still open. */
  function CompleteLines(received: string): (lines: seq<string>)
    ensures forall i :: 0 <= i < |lines| ==> '\n' !in lines[i]
    ensures received == Join(lines + [Last(Split(received, '\n'))], '\n')
  {
    var parts := Split(received, '\n');
    JoinSplit(received, '\n');
    assert Init(parts) + [Last(parts)] == parts;
    Init(parts)
  }

  /** The event one line yields: none when it is blank once trimmed or does not parse. */
  function LineEvents(parse: string -> Option<LichessEvent>, line: string): (evs: seq<LichessEvent>)
    ensures |evs| <= 1
    ensures |evs| == 1 <==> Trim(line) != "" && parse(Trim(line)).Some?
    ensures |evs| == 1 ==> evs[0] == parse(Trim(line)).value
  {
    var trimmed := Trim(line);
    if trimmed == "" then []
    else match parse(trimmed)
      case Some(ev) => [ev]
      case None => []
  }

  /** The events a list of lines yields, in order: each line is trimmed, a blank one is
      skipped, and so is one the parser rejects. */
  function EventsOf(parse: string -> Option<LichessEvent>, lines: seq<string>): seq<LichessEvent>
  {
    if |lines| == 0 then [] else EventsOf(parse, Init(lines)) + LineEvents(parse, Last(lines))
  }

  /** The events of consecutive stretches of lines follow each other. */
  lemma {:induction false} EventsOfAppend(parse: string -> Option<LichessEvent>, a: seq<string>, b: seq<string>)
    ensures EventsOf(parse, a + b) == EventsOf(parse, a) + EventsOf(parse, b)
    decreases |b|
  {
    if |b| == 0 {
      assert a + b == a;
    } else {
      assert Init(a + b) == a + Init(b);
      assert Last(a + b) == Last(b);
      EventsOfAppend(parse, a, Init(b));
    }
  }

  /** Every delivered event is the parse of some trimmed, non-blank line. */
  lemma {:induction false} EventsOfSound(parse: string -> Option<LichessEvent>, lines: seq<string>, ev: LichessEvent)
    ensures ev in EventsOf(parse, lines) ==>
              exists i :: 0 <= i < |lines| && Trim(lines[i]) != "" && parse(Trim(lines[i])) == Some(ev)
    decreases |lines|
  {
    if |lines| > 0 && ev in EventsOf(parse, lines) {
      var init := Init(lines);
      EventsOfSound(parse, init, ev);
      if ev in EventsOf(parse, init) {
        var i :| 0 <= i < |init| && Trim(init[i]) != "" && parse(Trim(init[i])) == Some(ev);
        assert lines[i] == init[i];
      } else {
        assert lines[|lines| - 1] == Last(lines);
      }
    }
  }

  /** Feeding `chunk` after `received`: the open last line grows into the pieces of
      `buffer + chunk`, so the completed lines gain exactly the completed pieces of it. */
  lemma FramingStep(parse: string -> Option<LichessEvent>, received: string, chunk: string)
    ensures var pieces := Split(Last(Split(received, '\n')) + chunk, '\n');
            Last(Split(received + chunk, '\n')) == Last(pieces)
            && EventsOf(parse, CompleteLines(received + chunk))
               == EventsOf(parse, CompleteLines(received)) + EventsOf(parse, Init(pieces))
  {
    var pieces := Split(Last(Split(received, '\n')) + chunk, '\n');
    SplitAppend(received, chunk, '\n');
    assert Split(received + chunk, '\n') == CompleteLines(received) + pieces;
    assert Init(CompleteLines(received) + pieces) == CompleteLines(received) + Init(pieces);
    EventsOfAppend(parse, CompleteLines(received), Init(pieces));
  }

  /** How a fetch ended: a response, or an `Error` with its `name` and `message`. */
  datatype Fetch = Fetched(ok: bool, status: nat, hasBody: bool) | FetchError(name: string, message: string)

  /** What one `reader.read()` gives: a chunk of decoded text, the end of the body, or an
      `Error` (a cancelled stream raises one named `AbortError`). */
  datatype ReadStep = Chunk(text: string) | End | ReadError(name: string, message: string)

  datatype StreamKind = EventStream | GameStream

  /** The `catch` of `connect`: every error but a cancellation reaches `onError`. */
  function Reported(name: string, message: string): (r: Option<string>)
    ensures r.None? <==> name == "AbortError"
    ensures r.Some? ==> r.value == message
  {
    if name == "AbortError" then None else Some(message)
  }

  /** The message of a non-ok response. */
  function ConnectionFailed(kind: StreamKind, status: nat): string
  {
    (if kind == EventStream then "Stream connection failed: " else "Game stream connection failed: ")
    + NatToString(status)
  }

  /** How many reads deliver a chunk before the first that does not. */
  function LeadingChunks(steps: seq<ReadStep>): (k: nat)
    ensures k <= |steps|
    ensures forall i :: 0 <= i < k ==> steps[i].Chunk?
    ensures k < |steps| ==> !steps[k].Chunk?
  {
    if |steps| == 0 || !steps[0].Chunk? then 0 else 1 + LeadingChunks(steps[1..])
  }

  /** The text of a list of chunk reads, in order. */
  function Concat(steps: seq<ReadStep>): string
    requires forall i :: 0 <= i < |steps| ==> steps[i].Chunk?
  {
    if |steps| == 0 then "" else Concat(Init(steps)) + Last(steps).text
  }

  /** The text the stream reads before it stops. */
  function TextRead(steps: seq<ReadStep>): string
  {
    Concat(steps[..LeadingChunks(steps)])
  }

  /** What the reading loop reports when it stops: nothing at the end of the body or when the
      steps run out, the error otherwise (unless it is a cancellation). */
  function StopReport(steps: seq<ReadStep>): Option<string>
  {
    var k := LeadingChunks(steps);
    if k < |steps| && steps[k].ReadError? then Reported(steps[k].name, steps[k].message) else None
  }

  /** `connect` of `streamEvents` (`kind == EventStream`) and `streamGame` (`GameStream`):
      returns the events passed to `onEvent`, in order, and what was passed to `onError`. A
      failed fetch, a non-ok response and a missing body deliver nothing and are reported,
      a cancellation excepted. Otherwise the delivered events are those of the completed lines
      of the text read, so an unterminated last line is never delivered, and the end of the
      body is not reported. */
  method Connect(kind: StreamKind, fetch: Fetch, steps: seq<ReadStep>, parse: string -> Option<LichessEvent>)
    returns (events: seq<LichessEvent>, reported: Option<string>)
    ensures fetch.FetchError? ==> events == [] && reported == Reported(fetch.name, fetch.message)
    ensures fetch.Fetched? && !fetch.ok ==> events == [] && reported == Some(ConnectionFailed(kind, fetch.status))
    ensures fetch.Fetched? && fetch.ok && !fetch.hasBody ==> events == [] && reported == Some("No response body")
    ensures fetch.Fetched? && fetch.ok && fetch.hasBody ==>
              events == EventsOf(parse, CompleteLines(TextRead(steps))) && reported == StopReport(steps)
  {
    if fetch.FetchError? {
      return [], Reported(fetch.name, fetch.message);
    }
    if !fetch.ok {
      return [], Some(ConnectionFailed(kind, fetch.status));
    }
    if !fetch.hasBody {
      return [], Some("No response body");
    }
    events, reported := ReadBody(steps, parse);
  }

  /** The `for (const line of lines)` loop: each completed line is trimmed, skipped when blank
      or unparseable, and its event delivered otherwise, in order. */
  method DeliverLines(parse: string -> Option<LichessEvent>, lines: seq<string>) returns (events: seq<LichessEvent>)
    ensures events == EventsOf(parse, lines)
  {
    events := [];
    for k := 0 to |lines|
      invariant events == EventsOf(parse, lines[..k])
    {
      var trimmed := Trim(lines[k]);
      if trimmed != "" {
        var parsed := parse(trimmed);
        if parsed.Some? {
          events := events + [parsed.value];
        }
      }
      assert Init(lines[..k + 1]) == lines[..k];
      assert Last(lines[..k + 1]) == lines[k];
    }
    assert lines[..|lines|] == lines;
  }

  /** The reading loop of `connect`: each chunk is appended to the carry buffer, the buffer
      is split on newlines, the piece after the last newline becomes the new buffer and the
      other pieces are trimmed, skipped when blank or unparseable, and delivered in order. The
      loop runs until the body ends, a read fails or the steps run out. Its invariant: the
      buffer is the open last line of the text read so far, and what was delivered is exactly
      the events of its completed lines, however the text was cut into chunks. */
  method ReadBody(steps: seq<ReadStep>, parse: string -> Option<LichessEvent>)
    returns (events: seq<LichessEvent>, reported: Option<string>)
    ensures events == EventsOf(parse, CompleteLines(TextRead(steps)))
    ensures reported == StopReport(steps)
  {
    var buffer := "";
    events := [];
    ghost var received := "";
    var i := 0;
    while i < |steps| && steps[i].Chunk?
      invariant i <= |steps|
      invariant forall j :: 0 <= j < i ==> steps[j].Chunk?
      invariant received == Concat(steps[..i])
      invariant buffer == Last(Split(received, '\n'))
      invariant events == EventsOf(parse, CompleteLines(received))
      decreases |steps| - i
    {
      var chunk := steps[i].text;
      var lines := Split(buffer + chunk, '\n');
      var complete := Init(lines);
      buffer := Last(lines);
      var delivered := DeliverLines(parse, complete);
      events := events + delivered;
      FramingStep(parse, received, chunk);
      assert Concat(steps[..i + 1]) == Concat(steps[..i]) + chunk by {
        assert Init(steps[..i + 1]) == steps[..i];
        assert Last(steps[..i + 1]) == steps[i];
      }
      received := received + chunk;
      i := i + 1;
    }
    assert TextRead(steps) == Concat(steps[..i]) by {
      assert i == LeadingChunks(steps);
    }
    reported := if i < |steps| && steps[i].ReadError? then Reported(steps[i].name, steps[i].message) else None;
  }

  /** Two lines completed by two newlines. */
  lemma CompleteTwoLines(x: string, y: string, rest: string)
    requires '\n' !in x && '\n' !in y && '\n' !in rest
    ensures CompleteLines(x + ['\n'] + rest) == [x]
    ensures CompleteLines(x + ['\n'] + (y + ['\n'] + rest)) == [x, y]
  {
    SplitPair(x, rest, '\n');
    assert Init([x, rest]) == [x];
    SplitPrefix(x, y + ['\n'] + rest, '\n');
    SplitPair(y, rest, '\n');
    assert [x] + [y, rest] == [x, y, rest];
    assert Init([x, y, rest]) == [x, y];
  }

  /** A JSON line without surrounding white space yields its parse. */
  lemma PlainLineEvents(parse: string -> Option<LichessEvent>, line: string, ev: LichessEvent)
    requires line != [] && !IsWhitespace(line[0]) && !IsWhitespace(Last(line))
    requires parse(line) == Some(ev)
    ensures LineEvents(parse, line) == [ev]
  {
    TrimKeeps(line);
  }

  /** The events of two chunks where the first line ends inside the first chunk and the
      second one inside the second. */
  lemma {:induction false} TwoChunkShape(parse: string -> Option<LichessEvent>, lineA: string, lineB: string, partial: string,
                                         a: LichessEvent, b: LichessEvent)
    requires '\n' !in lineA && '\n' !in lineB && '\n' !in partial
    requires LineEvents(parse, lineA) == [a] && LineEvents(parse, lineB) == [b]
    ensures EventsOf(parse, CompleteLines(lineA + ['\n'] + partial)) == [a]
    ensures EventsOf(parse, CompleteLines(lineA + ['\n'] + (lineB + ['\n'] + ""))) == [a, b]
  {
    CompleteTwoLines(lineA, lineB, partial);
    CompleteTwoLines(lineA, lineB, "");
    assert Init([lineA]) == [];
    assert Init([lineA, lineB]) == [lineA];
  }

  /** The chunks `{"type":"a"}\n{"ty` and `pe":"b"}\n`: after the first chunk only `a` is
      out, after both `a` and then `b`. */
  lemma TwoChunkExample(parse: string -> Option<LichessEvent>, a: LichessEvent, b: LichessEvent,
                        first: string, second: string)
    requires first == "{\"type\":\"a\"}\n{\"ty" && second == "pe\":\"b\"}\n"
    requires parse("{\"type\":\"a\"}") == Some(a) && parse("{\"type\":\"b\"}") == Some(b)
    ensures EventsOf(parse, CompleteLines(first)) == [a]
    ensures EventsOf(parse, CompleteLines(first + second)) == [a, b]
  {
    var lineA := first[..12];
    var partial := first[13..];
    var lineB := partial + second[..|second| - 1];
    assert lineA == "{\"type\":\"a\"}";
    assert lineB == "{\"type\":\"b\"}";
    PlainLineEvents(parse, lineA, a);
    PlainLineEvents(parse, lineB, b);
    assert first == lineA + ['\n'] + partial;
    assert first + second == lineA + ['\n'] + (lineB + ['\n'] + "");
    TwoChunkShape(parse, lineA, lineB, partial, a, b);
  }

  /** The handle `streamEvents` and `streamGame` return: calling it aborts this stream's
      controller and nothing else. */
  class StreamHandle {
    var aborted: bool

    constructor()
      ensures !aborted
    {
      aborted := false;
    }

    method Cancel()
      modifies this`aborted
      ensures aborted
    {
      aborted := true;
    }
  }

  /** The account fields the client reads; an absent rating is `None`. */
  datatype AccountData = AccountData(
    id: string, username: string,
    rapid: Option<int>, blitz: Option<int>, classical: Option<int>,
    title: Option<string>)

  predicate Truthy(x: Option<int>)
  {
    x.Some? && x.value != 0
  }

  /** `rapid || blitz || classical || 1500`: the first truthy rating, else 1500. */
  function AccountRating(d: AccountData): (rating: int)
    ensures Truthy(d.rapid) ==> rating == d.rapid.value
    ensures !Truthy(d.rapid) && Truthy(d.blitz) ==> rating == d.blitz.value
    ensures !Truthy(d.rapid) && !Truthy(d.blitz) && Truthy(d.classical) ==> rating == d.classical.value
    ensures !Truthy(d.rapid) && !Truthy(d.blitz) && !Truthy(d.classical) ==> rating == 1500
  {
    if Truthy(d.rapid) then d.rapid.value
    else if Truthy(d.blitz) then d.blitz.value
    else if Truthy(d.classical) then d.classical.value
    else 1500
  }

  /** An account rating is never zero, and it is either one of the three ratings or 1500. */
  lemma AccountRatingIsARating(d: AccountData)
    ensures AccountRating(d) != 0
    ensures AccountRating(d) == 1500 || Some(AccountRating(d)) in [d.rapid, d.blitz, d.classical]
  {
  }

  const InvalidToken := "Invalid API token. Please check your token and try again."

  /** `getAccount` given the response status and body: 401 is an invalid token, any other
      status outside 200-299 a failure naming the status; otherwise the user record. */
  function AccountFrom(status: nat, data: AccountData): (r: Result<LichessUser>)
    ensures status == 401 ==> r == Err(InvalidToken)
    ensures status != 401 && !(200 <= status <= 299) ==> r == Err("Failed to get account: " + NatToString(status))
    ensures 200 <= status <= 299 ==> r == Ok(LichessUser(data.id, data.username, AccountRating(data), data.title))
  {
    if status == 401 then Err(InvalidToken)
    else if !(200 <= status <= 299) then Err("Failed to get account: " + NatToString(status))
    else Ok(LichessUser(data.id, data.username, AccountRating(data), data.title))
  }

  /** The client object: it holds the access token sent with every request. */
  class LichessApi {
    var token: string

    constructor()
      ensures token == ""
    {
      token := "";
    }

    method SetToken(t: string)
      modifies this`token
      ensures token == t
    {
      token := t;
    }

    /** The `Authorization` header of every request. */
    function AuthorizationHeader(): (h: string)
      reads this
      ensures |h| == 7 + |token| && h[..7] == "Bearer " && h[7..] == token
    {
      "Bearer " + token
    }
  }
}
