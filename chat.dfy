/** The `/chat` handler: the empty-message check, the call into the chat
    collaborator, and the reshaping of its reply into trimmed lines. */
module Chat {
  import opened Text
  import opened Http

  const EmptyMessage := "Empty message"

  /** `data.get('message', '')` on the request's JSON object. */
  function MessageOf(data: map<string, string>): string {
    if "message" in data then data["message"] else ""
  }

  // ------------------------------------------------------------ reshaping

  /** `[line.strip() for line in pieces if line.strip()]`: the stripped
      pieces that are not empty, each of them without surrounding
      whitespace. */
  function KeepLines(pieces: seq<string>): (r: seq<string>)
    ensures |r| <= |pieces|
    ensures forall k :: 0 <= k < |r| ==> r[k] != [] && IsTrimmed(r[k])
  {
    if pieces == [] then []
    else
      var line := Strip(pieces[0]);
      var rest := KeepLines(pieces[1..]);
      if line == [] then rest else [line] + rest
  }

  /** The lines of a reply as the handler returns them: split at every
      '\n', each piece stripped, empty ones dropped. There is at most one
      line more than the reply has line breaks, and no line is empty, holds
      a line break or has whitespace at either end. */
  function ReplyLines(reply: string): (lines: seq<string>)
    ensures |lines| <= Count(reply, '\n') + 1
    ensures forall k :: 0 <= k < |lines| ==> lines[k] != [] && IsTrimmed(lines[k]) && '\n' !in lines[k]
  {
    var pieces := Split(reply, '\n');
    var lines := KeepLines(pieces);
    KeepLinesChars(pieces);
    lines
  }

  /** Every character of a kept line comes from one of the pieces. */
  lemma {:induction false} KeepLinesChars(pieces: seq<string>)
    requires forall k :: 0 <= k < |pieces| ==> '\n' !in pieces[k]
    ensures forall k :: 0 <= k < |KeepLines(pieces)| ==> '\n' !in KeepLines(pieces)[k]
  {
    if pieces != [] {
      StripChars(pieces[0]);
      KeepLinesChars(pieces[1..]);
    }
  }

  lemma {:induction false} KeepLinesConcat(a: seq<string>, b: seq<string>)
    ensures KeepLines(a + b) == KeepLines(a) + KeepLines(b)
  {
    if a == [] {
      assert a + b == b;
    } else {
      assert (a + b)[0] == a[0];
      assert (a + b)[1..] == a[1..] + b;
      KeepLinesConcat(a[1..], b);
    }
  }

  /** Lines that are already non-empty and trimmed are kept, all of them,
      in their order. */
  lemma {:induction false} KeepLinesFixed(xs: seq<string>)
    requires forall k :: 0 <= k < |xs| ==> xs[k] != [] && IsTrimmed(xs[k])
    ensures KeepLines(xs) == xs
  {
    if xs != [] {
      StripTrimmed(xs[0]);
      KeepLinesFixed(xs[1..]);
      assert [xs[0]] + xs[1..] == xs;
    }
  }

  /** A reply without a line break gives its stripped text as its only
      line, or no line when it is blank. */
  lemma ReplyLinesOfOneLine(reply: string)
    requires '\n' !in reply
    ensures ReplyLines(reply) == if AllSpace(reply) then [] else [Strip(reply)]
  {
    SplitWithoutSeparator(reply, '\n');
    StripEmptyIff(reply);
    assert [reply][1..] == [];
  }

  /** Order is preserved: the lines of two texts joined by a line break are
      the lines of the first followed by the lines of the second. */
  lemma ReplyLinesConcat(a: string, b: string)
    ensures ReplyLines(a + "\n" + b) == ReplyLines(a) + ReplyLines(b)
  {
    SplitConcat(a, b, '\n');
    KeepLinesConcat(Split(a, '\n'), Split(b, '\n'));
  }

  /** Reshaping is idempotent: joining the lines with '\n' and reshaping
      again gives the same lines. */
  lemma ReplyLinesIdempotent(reply: string)
    ensures ReplyLines(Join(ReplyLines(reply), '\n')) == ReplyLines(reply)
  {
    var lines := ReplyLines(reply);
    if lines == [] {
      assert Split([], '\n') == [[]];
      assert Strip([]) == [];
    } else {
      SplitJoin(lines, '\n');
      KeepLinesFixed(lines);
    }
  }

  /** Four pieces: a word, a blank piece, a word, and a padded word. */
  lemma KeepLinesOfFour(p0: string, p1: string, p2: string, p3: string)
    requires p0 != [] && IsTrimmed(p0) && AllSpace(p1) && p2 != [] && IsTrimmed(p2) && !AllSpace(p3)
    ensures KeepLines([p0, p1, p2, p3]) == [p0, p2, Strip(p3)]
  {
    var pieces := [p0, p1, p2, p3];
    StripTrimmed(p0);
    StripTrimmed(p2);
    StripEmptyIff(p1);
    StripEmptyIff(p3);
    var q1 := pieces[1..];
    var q2 := q1[1..];
    var q3 := q2[1..];
    assert q1[0] == p1 && q2[0] == p2 && q3 == [p3] && q3[1..] == [];
    assert KeepLines(q3) == [Strip(p3)];
    assert KeepLines(q2) == [p2, Strip(p3)];
    assert KeepLines(q1) == [p2, Strip(p3)];
  }

  lemma ExampleSplit()
    ensures Split("A\n\nB\n  C  ", '\n') == ["A", [], "B", "  C  "]
  {
    var pieces := ["A", [], "B", "  C  "];
    assert Join(pieces, '\n') == "A\n\nB\n  C  ";
    SplitJoin(pieces, '\n');
  }

  lemma ExampleStrip()
    ensures Strip("  C  ") == "C" && !AllSpace("  C  ")
  {
    assert "  C  " == "  " + "C" + "  ";
    StripOfPadded("  ", "C", "  ");
    assert "  C  "[2] == 'C';
  }

  /** The reply "A\n\nB\n  C  " becomes ["A", "B", "C"]: the blank line is
      dropped and the last line is trimmed. */
  lemma ReplyLinesExample()
    ensures ReplyLines("A\n\nB\n  C  ") == ["A", "B", "C"]
  {
    ExampleSplit();
    ExampleStrip();
    KeepLinesOfFour("A", [], "B", "  C  ");
  }

  // ------------------------------------------------------------ the handler

  /** How the `try` block of the chat handler ended. `LoopFailure`: creating
      or installing the event loop raised, before the collaborator was
      called. Otherwise the collaborator's `message` coroutine was run to
      completion and gave a reply text (`Answer`) or raised (`Failure`). Each
      failure is an exception derived from `Exception` (the class the
      handler's `except` catches) whose `str(e)` is `reason`. */
  datatype Reply = LoopFailure(reason: string) | Answer(text: string) | Failure(reason: string)

  /** One chat request: the response, and the messages handed to the
      collaborator (none, or the one message of the request). */
  datatype Exchange = Exchange(response: Response, asked: seq<string>)

  /** `chat`: a blank message is refused before the collaborator is asked;
      otherwise, once the event loop exists, the message is passed on as it
      was sent, unstripped, and the reply decides between 200 and 500. */
  function HandleChat(data: map<string, string>, reply: Reply): (x: Exchange)
    ensures x.response.status == BadRequest <==> AllSpace(MessageOf(data))
    ensures x.response.status == BadRequest ==> x.response.body == Error(EmptyMessage) && x.asked == []
    ensures x.response.status != BadRequest ==>
      x.asked == if reply.LoopFailure? then [] else [MessageOf(data)]
    ensures reply.LoopFailure? && x.response.status != BadRequest ==>
      x.response == Response(InternalServerError, Error(reply.reason))
    ensures reply.Answer? && x.response.status != BadRequest ==>
      x.response == Response(Ok, Lines(ReplyLines(reply.text)))
    ensures reply.Failure? && x.response.status != BadRequest ==>
      x.response == Response(InternalServerError, Error(reply.reason))
  {
    var message := MessageOf(data);
    StripEmptyIff(message);
    if Strip(message) == [] then Exchange(Response(BadRequest, Error(EmptyMessage)), [])
    else
      match reply
      case LoopFailure(reason) => Exchange(Response(InternalServerError, Error(reason)), [])
      case Answer(text) => Exchange(Response(Ok, Lines(ReplyLines(text))), [message])
      case Failure(reason) => Exchange(Response(InternalServerError, Error(reason)), [message])
  }

  /** A refused message does not depend on what the collaborator would have
      answered: it was never asked. */
  lemma RejectedChatIgnoresReply(data: map<string, string>, r1: Reply, r2: Reply)
    requires AllSpace(MessageOf(data))
    ensures HandleChat(data, r1) == HandleChat(data, r2)
    ensures HandleChat(data, r1) == Exchange(Response(BadRequest, Error(EmptyMessage)), [])
  {
  }

  /** A request without a `message` field is refused as empty. */
  lemma MissingMessageRejected(data: map<string, string>, reply: Reply)
    requires "message" !in data
    ensures HandleChat(data, reply) == Exchange(Response(BadRequest, Error(EmptyMessage)), [])
  {
  }
}
