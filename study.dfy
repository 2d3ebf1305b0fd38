/** The offline study answer: a question mentioning "summar" gets a bullet
    summary of up to four key points, one mentioning "explain" gets the top
    key point, any other gets up to three key points; without key points each
    kind of question gets its own request for study material. */
module StudyFallback {
  import opened PyText
  import opened KeyPointExtraction

  /** How many key points the offline answer extracts. */
  const AnswerPoints: int := 4
  /** How many of them a general question lists. */
  const GeneralPoints: int := 3

  // The longer messages are written in pieces of at most forty characters,
  // short enough for the verifier to read their characters off.
  const SummaryTitle: string := "Quick summary:"
  const GeneralTitle: string := "From your material, " + "focus on these points:"
  const ExplanationPrefix: string :=
    "Here is a simple explanation " + "based on your material: "
  const NeedMaterialToSummarize: string :=
    "I need more study material " + "to summarize. " + "Please upload a document or paste text."
  const NeedTopicText: string := "Share the topic text " + "and I can explain it step by step."
  const NeedStudyText: string :=
    "Upload or paste study text " + "and ask me to summarize, " + "explain, or quiz you."

  /** The separator between two bullets of a list answer. */
  const BulletSeparator: string := "\n- "

  /** The three answers given when the text yields no key point. */
  const NeedMaterialReplies: set<string> := {NeedMaterialToSummarize, NeedTopicText, NeedStudyText}

  /** Each point as a "- " bullet line. */
  function Bulleted(points: seq<string>): (lines: seq<string>)
    ensures |lines| == |points|
    ensures forall i :: 0 <= i < |points| ==> lines[i] == "- " + points[i]
  {
    seq(|points|, i requires 0 <= i < |points| => "- " + points[i])
  }

  /** A title followed by one bullet per point, as the backend formats it. */
  function BulletList(title: string, points: seq<string>): string
  {
    title + BulletSeparator + Join(points, BulletSeparator)
  }

  /** What the question asks for: "summar" wins over "explain", matched in
      the lower-cased question. */
  datatype Intent = Summarize | Explain | General

  function IntentOf(question: string): (intent: Intent)
    ensures intent == Summarize <==> Contains(Lower(question), "summar")
    ensures intent == Explain <==>
              !Contains(Lower(question), "summar") && Contains(Lower(question), "explain")
  {
    var q := Lower(question);
    if Contains(q, "summar") then Summarize
    else if Contains(q, "explain") then Explain
    else General
  }

  /** The answer to a question of the given kind from the given key points. */
  function Answer(intent: Intent, points: seq<string>): (answer: string)
    ensures answer != [] && answer[0] !in Whitespace
    ensures answer in NeedMaterialReplies <==> points == []
  {
    if points == [] then
      match intent
      case Summarize => NeedMaterialToSummarize
      case Explain => NeedTopicText
      case General => NeedStudyText
    else
      match intent
      case Summarize =>
        FirstOfList(SummaryTitle, points);
        BulletList(SummaryTitle, points)
      case Explain =>
        assert (ExplanationPrefix + points[0])[0] == 'H';
        ExplanationPrefix + points[0]
      case General =>
        FirstOfList(GeneralTitle, PyPrefix(points, GeneralPoints));
        BulletList(GeneralTitle, PyPrefix(points, GeneralPoints))
  }

  /** A list answer begins with its title. */
  lemma FirstOfList(title: string, points: seq<string>)
    requires title != []
    ensures BulletList(title, points)[0] == title[0]
  {
  }

  /** The answer given without the language model; `question` and `text`
      are the already stripped request fields. */
  function StudyFallbackAnswer(question: string, text: string): (answer: string)
    ensures answer != [] && answer[0] !in Whitespace
  {
    Answer(IntentOf(question), KeyPoints(text, AnswerPoints))
  }

  // ----------------------------------------------------------------------
  // The line structure of list answers
  // ----------------------------------------------------------------------

  /** The bullet separator joins points into "- " lines joined by line breaks. */
  lemma {:induction false} BulletsJoin(points: seq<string>)
    requires points != []
    ensures "- " + Join(points, BulletSeparator) == Join(Bulleted(points), "\n")
  {
    if |points| > 1 {
      BulletsJoin(points[1..]);
      assert Bulleted(points) == ["- " + points[0]] + Bulleted(points[1..]);
      calc {
        "- " + Join(points, BulletSeparator);
        "- " + (points[0] + BulletSeparator + Join(points[1..], BulletSeparator));
        ("- " + points[0]) + "\n" + ("- " + Join(points[1..], BulletSeparator));
        ("- " + points[0]) + "\n" + Join(Bulleted(points[1..]), "\n");
      }
    }
  }

  /** Splitting a list answer at its line breaks gives the title line and
      one "- " line per point, when neither the title nor a point holds a
      separator. */
  lemma BulletListLines(title: string, points: seq<string>, seps: set<char>)
    requires points != [] && '\n' in seps && '-' !in seps && ' ' !in seps
    requires forall i :: 0 <= i < |title| ==> title[i] !in seps
    requires forall k, i :: 0 <= k < |points| && 0 <= i < |points[k]| ==> points[k][i] !in seps
    ensures Split(BulletList(title, points), seps) == [title] + Bulleted(points)
  {
    BulletsJoin(points);
    var lines := [title] + Bulleted(points);
    assert BulletList(title, points) == Join(lines, "\n");
    forall k, i | 0 <= k < |lines| && 0 <= i < |lines[k]|
      ensures lines[k][i] !in seps
    {
      if k > 0 {
        assert lines[k] == "- " + points[k - 1];
        if i >= 2 {
          assert lines[k][i] == points[k - 1][i - 2];
        }
      }
    }
    SplitJoin(lines, '\n', seps);
  }

  /** Key points never hold a line break. */
  lemma PointsWithoutLineBreak(text: string, m: int)
    ensures forall k, i :: 0 <= k < |KeyPoints(text, m)| && 0 <= i < |KeyPoints(text, m)[k]| ==>
              KeyPoints(text, m)[k][i] !in {'\n'}
  {
    PointsComeFromSentences(text, m);
    forall k, i | 0 <= k < |KeyPoints(text, m)| && 0 <= i < |KeyPoints(text, m)[k]|
      ensures KeyPoints(text, m)[k][i] !in {'\n'}
    {
      assert KeyPoints(text, m)[k] in KeyPoints(text, m);
    }
  }

  // ----------------------------------------------------------------------
  // Properties of the answer
  // ----------------------------------------------------------------------

  /** A summary request, whatever else the question says, is answered with
      the title line and one bullet per key point, at most four of them. */
  lemma SummaryAnswer(question: string, text: string)
    requires Contains(Lower(question), "summar") && Sentences(text) != []
    ensures 1 <= |KeyPoints(text, AnswerPoints)| <= AnswerPoints
    ensures Split(StudyFallbackAnswer(question, text), {'\n'}) ==
              [SummaryTitle] + Bulleted(KeyPoints(text, AnswerPoints))
  {
    KeyPointsCount(text, AnswerPoints);
    PointsWithoutLineBreak(text, AnswerPoints);
    ListLines(Summarize, KeyPoints(text, AnswerPoints));
  }

  /** The lines of a list answer, for points without line breaks. */
  lemma ListLines(intent: Intent, points: seq<string>)
    requires intent != Explain && points != []
    requires forall k, i :: 0 <= k < |points| && 0 <= i < |points[k]| ==> points[k][i] !in {'\n'}
    ensures intent == Summarize ==>
              Split(Answer(intent, points), {'\n'}) == [SummaryTitle] + Bulleted(points)
    ensures intent == General ==>
              Split(Answer(intent, points), {'\n'}) ==
                [GeneralTitle] + Bulleted(PyPrefix(points, GeneralPoints))
  {
    assert '\n' !in SummaryTitle && '\n' !in GeneralTitle;
    if intent == Summarize {
      TitleLine(SummaryTitle);
      BulletListLines(SummaryTitle, points, {'\n'});
    } else {
      TitleLine(GeneralTitle);
      BulletListLines(GeneralTitle, PyPrefix(points, GeneralPoints), {'\n'});
    }
  }

  lemma TitleLine(title: string)
    requires '\n' !in title
    ensures forall i :: 0 <= i < |title| ==> title[i] !in {'\n'}
  {
    forall i | 0 <= i < |title|
      ensures title[i] !in {'\n'}
    {
      assert title[i] in title;
    }
  }

  /** An explanation request without "summar" is answered with the top key
      point, which is the best sentence, truncated, on a single line. */
  lemma ExplanationAnswer(question: string, text: string)
    requires !Contains(Lower(question), "summar") && Contains(Lower(question), "explain")
    requires Sentences(text) != []
    ensures |KeyPoints(text, 1)| == 1
    ensures StudyFallbackAnswer(question, text) == ExplanationPrefix + KeyPoints(text, 1)[0]
    ensures '\n' !in StudyFallbackAnswer(question, text)
  {
    KeyPointsCount(text, AnswerPoints);
    KeyPointsCount(text, 1);
    KeyPointsPrefix(text, 1, AnswerPoints);
    PointsComeFromSentences(text, 1);
    ExplanationLine(KeyPoints(text, 1));
  }

  /** The explanation prefix followed by a point without line break is one line. */
  lemma ExplanationLine(points: seq<string>)
    requires |points| == 1
    requires forall p :: p in points ==> '\n' !in p
    ensures '\n' !in ExplanationPrefix + points[0]
  {
    assert points[0] in points;
    assert '\n' !in ExplanationPrefix;
  }

  /** Any other question is answered with the title line and the first
      three key points at most, the same three a three-point extraction
      gives. */
  lemma GeneralAnswer(question: string, text: string)
    requires !Contains(Lower(question), "summar") && !Contains(Lower(question), "explain")
    requires Sentences(text) != []
    ensures 1 <= |KeyPoints(text, GeneralPoints)| <= GeneralPoints
    ensures Split(StudyFallbackAnswer(question, text), {'\n'}) ==
              [GeneralTitle] + Bulleted(KeyPoints(text, GeneralPoints))
  {
    KeyPointsCount(text, AnswerPoints);
    KeyPointsCount(text, GeneralPoints);
    KeyPointsPrefix(text, GeneralPoints, AnswerPoints);
    PointsWithoutLineBreak(text, AnswerPoints);
    ListLines(General, KeyPoints(text, AnswerPoints));
  }

  /** The answer asks for study material exactly when the text has no
      sentence, and then the request matches the kind of question. */
  lemma NeedMaterialAnswer(question: string, text: string)
    ensures StudyFallbackAnswer(question, text) in NeedMaterialReplies <==> Sentences(text) == []
    ensures Sentences(text) == [] ==>
              StudyFallbackAnswer(question, text) ==
                match IntentOf(question)
                case Summarize => NeedMaterialToSummarize
                case Explain => NeedTopicText
                case General => NeedStudyText
  {
    KeyPointsEmpty(text, AnswerPoints);
  }
}
