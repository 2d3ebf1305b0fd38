/** The text endpoints: `/chat`, `/study/highlights` and `/study/chat`.
    Each request field that may be absent is an `Option<string>`; the
    language model's answer is the parameter `model`, `None` standing for
    every way the call can fail (no API key, an exception, no content).  The
    prompts sent to the model are not modelled, only what is done with its
    answer. */
module Endpoints {
  import opened Wrappers
  import opened PyText
  import opened LocalReplies
  import opened KeyPointExtraction
  import opened StudyFallback

  const NoMessageReply: string := "I didn't receive a message."
  const NoStudyTextMessage: string := "No study text provided."
  const NoQuestionReply: string := "Please ask a study question."

  /** How many highlights are extracted, locally or from the model. */
  const HighlightCount: int := 5

  /** Python's `(x or "")` for an optional string. */
  function OrEmpty(x: Option<string>): string
  {
    match x
    case None => []
    case Some(s) => s
  }

  /** Python's `x` used as a condition, for an optional string. */
  predicate Given(x: Option<string>)
  {
    x.Some? && x.value != []
  }

  // ----------------------------------------------------------------------
  // /chat
  // ----------------------------------------------------------------------

  /** The message the request carries: the query parameter if it is a
      non-empty string, else the body's message if that is, else "". */
  function GivenMessage(query: Option<string>, body: Option<string>): (m: string)
    ensures Given(query) ==> m == query.value
    ensures !Given(query) && Given(body) ==> m == body.value
    ensures !Given(query) && !Given(body) ==> m == []
  {
    if Given(query) then query.value else OrEmpty(body)
  }

  /** The `/chat` reply to a message given as query parameter `query` or in
      the body as `body`, with `model` the model's answer and `pick` the
      random choice of the offline reply. */
  function Chat(query: Option<string>, body: Option<string>, model: Option<string>, pick: nat)
    : (reply: string)
    ensures !IsBlank(reply)
  {
    ChatReply(Strip(GivenMessage(query, body)), model, pick)
  }

  /** The reply to the stripped message. */
  function ChatReply(message: string, model: Option<string>, pick: nat): (reply: string)
    ensures !IsBlank(reply)
  {
    if message == [] then
      assert NoMessageReply[0] == 'I';
      NoMessageReply
    else if model.Some? && Strip(model.value) != [] then model.value
    else
      var r := GenerateLocalReply(message, pick);
      assert r[0] !in Whitespace;
      r
  }

  /** Without a message the reply is fixed, whatever the model would say and
      whatever the random choice. */
  lemma ChatWithoutMessage(query: Option<string>, body: Option<string>,
                           model: Option<string>, pick: nat)
    requires IsBlank(GivenMessage(query, body))
    ensures Chat(query, body, model, pick) == NoMessageReply
  {
  }

  /** A non-empty query parameter is the message; the body is not read. */
  lemma ChatQueryOverridesBody(query: string, body1: Option<string>, body2: Option<string>,
                               model: Option<string>, pick: nat)
    requires query != []
    ensures Chat(Some(query), body1, model, pick) == Chat(Some(query), body2, model, pick)
  {
    assert GivenMessage(Some(query), body1) == GivenMessage(Some(query), body2);
  }

  /** A model answer that is not blank is passed on as it is, unstripped. */
  lemma ChatKeepsModelAnswer(query: Option<string>, body: Option<string>,
                             answer: string, pick: nat)
    requires !IsBlank(GivenMessage(query, body)) && !IsBlank(answer)
    ensures Chat(query, body, Some(answer), pick) == answer
  {
  }

  /** When the model fails or answers blank, the reply is the offline reply
      to the stripped message: one of the replies of its keyword bucket. */
  lemma ChatFallsBackLocally(query: Option<string>, body: Option<string>,
                             model: Option<string>, pick: nat)
    requires !IsBlank(GivenMessage(query, body))
    requires model.None? || IsBlank(model.value)
    ensures Chat(query, body, model, pick) ==
              GenerateLocalReply(Strip(GivenMessage(query, body)), pick)
    ensures Chat(query, body, model, pick) in
              RepliesFor(Classify(Strip(GivenMessage(query, body))))
  {
  }

  // ----------------------------------------------------------------------
  // /study/highlights
  // ----------------------------------------------------------------------

  /** The response body: the highlights and, for a request without text,
      a message. */
  datatype Highlights = Highlights(points: seq<string>, message: Option<string>)

  /** The characters `p.strip("- ")` removes. */
  const BulletChars: set<char> := {'-', ' '}

  /** A line with `p.strip("- ").strip()` applied. */
  function CleanLine(line: string): (p: string)
    ensures Strip(p) == p
    ensures forall c :: c in p ==> c in line
  {
    var t := StripChars(line, BulletChars);
    StripIdempotent(t);
    Strip(t)
  }

  /** The non-blank lines, each cleaned of bullet dashes and spaces. */
  function BulletLines(lines: seq<string>): (points: seq<string>)
    ensures |points| <= |lines|
  {
    if lines == [] then []
    else if IsBlank(lines[0]) then BulletLines(lines[1..])
    else [CleanLine(lines[0])] + BulletLines(lines[1..])
  }

  /** Cleaning keeps no character that no line holds. */
  lemma {:induction false} BulletLinesChars(lines: seq<string>, cs: set<char>)
    requires forall j :: 0 <= j < |lines| ==> Avoids(lines[j], cs)
    ensures forall k :: 0 <= k < |BulletLines(lines)| ==> Avoids(BulletLines(lines)[k], cs)
  {
    if lines != [] {
      var rest := BulletLines(lines[1..]);
      BulletLinesChars(lines[1..], cs);
      if !IsBlank(lines[0]) {
        var r := BulletLines(lines);
        assert r == [CleanLine(lines[0])] + rest;
        CleanedLineChars(lines[0], cs);
        forall k | 0 <= k < |r|
          ensures Avoids(r[k], cs)
        {
          if k > 0 {
            assert r[k] == rest[k - 1];
          }
        }
      }
    }
  }

  /** Every cleaned line is its own strip. */
  lemma {:induction false} BulletLinesStripped(lines: seq<string>)
    ensures forall k :: 0 <= k < |BulletLines(lines)| ==>
              Strip(BulletLines(lines)[k]) == BulletLines(lines)[k]
  {
    if lines != [] {
      var rest := BulletLines(lines[1..]);
      BulletLinesStripped(lines[1..]);
      if !IsBlank(lines[0]) {
        var r := BulletLines(lines);
        assert r == [CleanLine(lines[0])] + rest;
        forall k | 0 <= k < |r|
          ensures Strip(r[k]) == r[k]
        {
          if k > 0 {
            assert r[k] == rest[k - 1];
          }
        }
      }
    }
  }

  lemma CleanedLineChars(line: string, cs: set<char>)
    requires Avoids(line, cs)
    ensures Avoids(CleanLine(line), cs)
  {
    CharsAvoid(CleanLine(line), line, cs);
  }

  /** The highlights read off the model's answer: its non-blank lines,
      cleaned of bullets, the first five of them. */
  function ModelPoints(answer: string): (points: seq<string>)
    ensures |points| <= HighlightCount
  {
    PyPrefix(BulletLines(Split(Strip(answer), LineBreaks)), HighlightCount)
  }

  /** No highlight read off the model holds a line break, and each is its
      own strip. */
  lemma ModelPointsLines(answer: string)
    ensures forall k :: 0 <= k < |ModelPoints(answer)| ==>
              Avoids(ModelPoints(answer)[k], LineBreaks) &&
              Strip(ModelPoints(answer)[k]) == ModelPoints(answer)[k]
  {
    var lines := Split(Strip(answer), LineBreaks);
    SplitPiecesAvoid(Strip(answer), LineBreaks);
    BulletLinesChars(lines, LineBreaks);
    BulletLinesStripped(lines);
    PrefixAvoids(BulletLines(lines), ModelPoints(answer), LineBreaks);
  }

  /** The model's answer yields highlights exactly when it is not blank. */
  lemma ModelPointsEmpty(answer: string)
    ensures ModelPoints(answer) == [] <==> IsBlank(answer)
  {
    var t := Strip(answer);
    var lines := Split(t, LineBreaks);
    var all := BulletLines(lines);
    assert ModelPoints(answer) == PyPrefix(all, HighlightCount);
    if t == [] {
      assert lines == [[]];
      assert IsBlank(lines[0]);
      assert all == BulletLines(lines[1..]);
    } else {
      assert t[0] !in LineBreaks;
      assert lines[0][0] == t[0];
      assert !IsBlank(lines[0]);
      assert all != [];
    }
  }

  lemma PrefixAvoids(all: seq<string>, points: seq<string>, cs: set<char>)
    requires points == PyPrefix(all, HighlightCount)
    requires forall k :: 0 <= k < |all| ==> Avoids(all[k], cs) && Strip(all[k]) == all[k]
    ensures forall k :: 0 <= k < |points| ==> Avoids(points[k], cs) && Strip(points[k]) == points[k]
  {
    assert forall k :: 0 <= k < |points| ==> points[k] == all[k];
  }

  /** The `/study/highlights` response for the request's `text`. */
  function StudyHighlights(text: Option<string>, model: Option<string>): (h: Highlights)
    ensures |h.points| <= HighlightCount
    ensures h.message.Some? <==> IsBlank(OrEmpty(text))
    ensures h.message.Some? ==> h.points == [] && h.message.value == NoStudyTextMessage
  {
    var t := Strip(OrEmpty(text));
    if t == [] then Highlights([], Some(NoStudyTextMessage))
    else
      var local := KeyPoints(t, HighlightCount);
      KeyPointsCount(t, HighlightCount);
      var points := match model
        case None => local
        case Some(answer) =>
          var fromModel := ModelPoints(answer);
          if fromModel != [] then fromModel else local;
      Highlights(points, None)
  }

  /** Without the model, the highlights are the text's five best sentences. */
  lemma HighlightsOffline(text: Option<string>)
    requires !IsBlank(OrEmpty(text))
    ensures StudyHighlights(text, None).points == KeyPoints(Strip(OrEmpty(text)), HighlightCount)
  {
  }

  /** A non-blank answer wins over the local extraction, and then the
      highlights do not depend on the text. */
  lemma HighlightsPreferModel(text1: Option<string>, text2: Option<string>, answer: string)
    requires !IsBlank(OrEmpty(text1)) && !IsBlank(OrEmpty(text2))
    requires !IsBlank(answer)
    ensures StudyHighlights(text1, Some(answer)).points == ModelPoints(answer)
    ensures StudyHighlights(text1, Some(answer)) == StudyHighlights(text2, Some(answer))
  {
    ModelPointsEmpty(answer);
  }

  /** A blank model answer leaves the local extraction in place. */
  lemma HighlightsBlankAnswer(text: Option<string>, answer: string)
    requires IsBlank(answer)
    ensures StudyHighlights(text, Some(answer)) == StudyHighlights(text, None)
  {
    ModelPointsEmpty(answer);
  }

  /** A point that can be written as a bullet line and read back: not
      empty, no line break, and neither end a dash or whitespace. */
  predicate BulletReady(q: string)
  {
    q != [] && q[0] !in Whitespace + BulletChars && q[|q| - 1] !in Whitespace + BulletChars &&
    forall i :: 0 <= i < |q| ==> q[i] !in LineBreaks
  }

  /** An answer written as "- " bullet lines gives back its points, the
      first five of them. */
  lemma ModelPointsOfBulletList(qs: seq<string>)
    requires qs != []
    requires forall k :: 0 <= k < |qs| ==> BulletReady(qs[k])
    ensures ModelPoints(Join(Bulleted(qs), "\n")) == PyPrefix(qs, HighlightCount)
  {
    var lines := Bulleted(qs);
    var answer := Join(lines, "\n");
    BulletLinesFree(qs);
    SplitJoin(lines, '\n', LineBreaks);
    AnswerIsStripped(qs);
    BulletLinesOfBulleted(qs);
  }

  /** No bullet line holds a line break. */
  lemma BulletLinesFree(qs: seq<string>)
    requires forall k :: 0 <= k < |qs| ==> BulletReady(qs[k])
    ensures forall k, i :: 0 <= k < |Bulleted(qs)| && 0 <= i < |Bulleted(qs)[k]| ==>
              Bulleted(qs)[k][i] !in LineBreaks
  {
    forall k, i | 0 <= k < |Bulleted(qs)| && 0 <= i < |Bulleted(qs)[k]|
      ensures Bulleted(qs)[k][i] !in LineBreaks
    {
      if i >= 2 {
        assert Bulleted(qs)[k][i] == qs[k][i - 2];
      }
    }
  }

  /** A bullet list neither starts nor ends with whitespace. */
  lemma AnswerIsStripped(qs: seq<string>)
    requires qs != []
    requires forall k :: 0 <= k < |qs| ==> BulletReady(qs[k])
    ensures Strip(Join(Bulleted(qs), "\n")) == Join(Bulleted(qs), "\n")
  {
    JoinEnds(Bulleted(qs));
    var answer := Join(Bulleted(qs), "\n");
    var last := qs[|qs| - 1];
    assert Bulleted(qs)[|qs| - 1][|last| + 1] == last[|last| - 1];
    StripOfTrimmed(answer);
  }

  /** A join of non-empty pieces starts with the first piece's first
      character and ends with the last piece's last character. */
  lemma {:induction false} JoinEnds(parts: seq<string>)
    requires parts != [] && forall k :: 0 <= k < |parts| ==> parts[k] != []
    ensures Join(parts, "\n") != []
    ensures Join(parts, "\n")[0] == parts[0][0]
    ensures Join(parts, "\n")[|Join(parts, "\n")| - 1] == parts[|parts| - 1][|parts[|parts| - 1]| - 1]
  {
    if |parts| > 1 {
      JoinEnds(parts[1..]);
    }
  }

  /** Cleaning "- " bullet lines gives back their points. */
  lemma {:induction false} BulletLinesOfBulleted(qs: seq<string>)
    requires forall k :: 0 <= k < |qs| ==> BulletReady(qs[k])
    ensures BulletLines(Bulleted(qs)) == qs
  {
    if qs != [] {
      var q := qs[0];
      var rest := Bulleted(qs[1..]);
      BulletedCons(qs);
      BulletLinesOfBulleted(qs[1..]);
      BulletLineClean(q);
      BulletLinesCons("- " + q, rest);
      calc {
        BulletLines(Bulleted(qs));
        BulletLines(["- " + q] + rest);
        [CleanLine("- " + q)] + BulletLines(rest);
        [q] + qs[1..];
        { HeadTail(qs); }
        qs;
      }
    }
  }

  lemma HeadTail<T>(s: seq<T>)
    requires s != []
    ensures [s[0]] + s[1..] == s
  {
  }

  lemma BulletedCons(qs: seq<string>)
    requires qs != []
    ensures Bulleted(qs) == ["- " + qs[0]] + Bulleted(qs[1..])
  {
  }

  /** A non-blank first line contributes its cleaned form first. */
  lemma BulletLinesCons(line: string, rest: seq<string>)
    requires !IsBlank(line)
    ensures BulletLines([line] + rest) == [CleanLine(line)] + BulletLines(rest)
  {
    assert ([line] + rest)[1..] == rest;
  }

  /** One "- " bullet line cleans back to its point. */
  lemma BulletLineClean(q: string)
    requires BulletReady(q)
    ensures !IsBlank("- " + q)
    ensures CleanLine("- " + q) == q
  {
    assert ("- " + q)[0] == '-';
    StripCharsOfPadded("- ", q, BulletChars);
    StripOfTrimmed(q);
  }

  // ----------------------------------------------------------------------
  // /study/chat
  // ----------------------------------------------------------------------

  /** The `/study/chat` reply to `question` about `text`. */
  function StudyChat(question: Option<string>, text: Option<string>, model: Option<string>)
    : (reply: string)
    ensures reply != [] && reply[0] !in Whitespace
  {
    var q := Strip(OrEmpty(question));
    var t := Strip(OrEmpty(text));
    if q == [] then NoQuestionReply
    else
      var answer := if model.Some? then Strip(model.value) else [];
      if answer != [] then answer else StudyFallbackAnswer(q, t)
  }

  /** Without a question the reply is fixed, whatever the text and the model. */
  lemma StudyChatWithoutQuestion(question: Option<string>, text: Option<string>,
                                 model: Option<string>)
    requires IsBlank(OrEmpty(question))
    ensures StudyChat(question, text, model) == NoQuestionReply
  {
  }

  /** A non-blank model answer is returned stripped. */
  lemma StudyChatKeepsModelAnswer(question: Option<string>, text: Option<string>, answer: string)
    requires !IsBlank(OrEmpty(question)) && !IsBlank(answer)
    ensures StudyChat(question, text, Some(answer)) == Strip(answer)
    ensures Strip(StudyChat(question, text, Some(answer))) == StudyChat(question, text, Some(answer))
  {
    StripIdempotent(answer);
  }

  /** When the model fails or answers blank, the reply is the offline
      answer to the stripped question about the stripped text. */
  lemma StudyChatFallsBack(question: Option<string>, text: Option<string>, model: Option<string>)
    requires !IsBlank(OrEmpty(question))
    requires model.None? || IsBlank(model.value)
    ensures StudyChat(question, text, model) ==
              StudyFallbackAnswer(Strip(OrEmpty(question)), Strip(OrEmpty(text)))
  {
  }
}
