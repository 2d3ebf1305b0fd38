/** The offline study-highlight extractor: the text is cut into sentences at
    every '.', each sentence is scored (+2 for a study keyword, +1 per 80
    characters up to +2), the sentences are stably sorted by descending score,
    the first `maxPoints` are kept and each is cut to 220 characters, marked
    with "..." when cut. */
module KeyPointExtraction {
  import opened PyText

  const Keywords: seq<string> :=
    ["important", "key", "must", "should", "therefore", "because", "definition"]

  /** The longest point kept before an ellipsis is added. */
  const MaxPointLength: nat := 220
  const Ellipsis: string := "..."

  /** A sentence with its score. */
  datatype Scored = Scored(score: int, sentence: string)

  // ----------------------------------------------------------------------
  // Sentences and scores
  // ----------------------------------------------------------------------

  /** The text with line breaks turned into spaces, then stripped. */
  function Cleaned(text: string): (c: string)
    ensures '\n' !in c
  {
    Strip(ReplaceChar(text, '\n', ' '))
  }

  /** The stripped pieces that are not empty, in order. */
  function StrippedNonBlank(pieces: seq<string>): (r: seq<string>)
    ensures |r| <= |pieces|
  {
    if pieces == [] then []
    else if IsBlank(pieces[0]) then StrippedNonBlank(pieces[1..])
    else [Strip(pieces[0])] + StrippedNonBlank(pieces[1..])
  }

  /** Every kept piece is non-empty and its own strip. */
  lemma {:induction false} StrippedNonBlankTrimmed(pieces: seq<string>)
    ensures forall k :: 0 <= k < |StrippedNonBlank(pieces)| ==>
              StrippedNonBlank(pieces)[k] != [] &&
              Strip(StrippedNonBlank(pieces)[k]) == StrippedNonBlank(pieces)[k]
  {
    if pieces != [] {
      var rest := StrippedNonBlank(pieces[1..]);
      StrippedNonBlankTrimmed(pieces[1..]);
      if !IsBlank(pieces[0]) {
        var r := StrippedNonBlank(pieces);
        assert r == [Strip(pieces[0])] + rest;
        StripIdempotent(pieces[0]);
        forall k | 0 <= k < |r|
          ensures r[k] != [] && Strip(r[k]) == r[k]
        {
          if k > 0 {
            assert r[k] == rest[k - 1];
          }
        }
      }
    }
  }

  /** Nothing is kept exactly when every piece is blank. */
  lemma {:induction false} StrippedNonBlankEmpty(pieces: seq<string>)
    ensures StrippedNonBlank(pieces) == [] <==> forall j :: 0 <= j < |pieces| ==> IsBlank(pieces[j])
  {
    if pieces != [] {
      StrippedNonBlankEmpty(pieces[1..]);
      assert forall j :: 1 <= j < |pieces| ==> pieces[j] == pieces[1..][j - 1];
    }
  }

  /** A character of a kept piece is a character of one of the pieces. */
  lemma {:induction false} StrippedNonBlankChars(pieces: seq<string>, cs: set<char>)
    requires forall j :: 0 <= j < |pieces| ==> Avoids(pieces[j], cs)
    ensures forall k :: 0 <= k < |StrippedNonBlank(pieces)| ==> Avoids(StrippedNonBlank(pieces)[k], cs)
  {
    if pieces != [] {
      var rest := StrippedNonBlank(pieces[1..]);
      StrippedNonBlankChars(pieces[1..], cs);
      if !IsBlank(pieces[0]) {
        var r := StrippedNonBlank(pieces);
        assert r == [Strip(pieces[0])] + rest;
        StripAvoids(pieces[0], cs);
        forall k | 0 <= k < |r|
          ensures Avoids(r[k], cs)
        {
          if k > 0 {
            assert r[k] == rest[k - 1];
          }
        }
      }
    }
  }

  /** The trimmed, non-empty '.'-separated sentences of an already cleaned text. */
  function RawSentences(cleaned: string): seq<string>
  {
    StrippedNonBlank(Split(cleaned, {'.'}))
  }

  /** The sentences the extractor scores, in the order they appear. */
  function Sentences(text: string): seq<string>
  {
    RawSentences(Cleaned(text))
  }

  /** Every sentence is non-empty, trimmed, and holds no '.' and no line break. */
  lemma SentencesAreTrimmedPieces(text: string)
    ensures forall k :: 0 <= k < |Sentences(text)| ==>
              Sentences(text)[k] != [] && Strip(Sentences(text)[k]) == Sentences(text)[k] &&
              Avoids(Sentences(text)[k], {'.', '\n'})
  {
    var cleaned := Cleaned(text);
    var pieces := Split(cleaned, {'.'});
    SplitPiecesAvoid(cleaned, {'.'});
    forall j | 0 <= j < |pieces|
      ensures Avoids(pieces[j], {'.', '\n'})
    {
      assert forall i :: 0 <= i < |pieces[j]| ==> pieces[j][i] in pieces[j];
    }
    StrippedNonBlankChars(pieces, {'.', '\n'});
    StrippedNonBlankTrimmed(pieces);
  }

  predicate HasKeyword(sentence: string)
  {
    ContainsAny(Lower(sentence), Keywords)
  }

  /** The score of a sentence: 2 for a study keyword plus a length bonus of
      one per full 80 characters, at most 2. */
  function Score(sentence: string): (r: int)
    ensures 0 <= r <= 4
  {
    (if HasKeyword(sentence) then 2 else 0) + Min(|sentence| / 80, 2)
  }

  /** The scores by length band: under 80, under 160, and longer. */
  lemma ScoreTable(sentence: string)
    ensures |sentence| < 80 ==> Score(sentence) == (if HasKeyword(sentence) then 2 else 0)
    ensures 80 <= |sentence| < 160 ==> Score(sentence) == (if HasKeyword(sentence) then 3 else 1)
    ensures 160 <= |sentence| ==> Score(sentence) == (if HasKeyword(sentence) then 4 else 2)
  {
  }

  /** Each sentence paired with its score, in sentence order. */
  function ScoreAll(sentences: seq<string>): (r: seq<Scored>)
    ensures |r| == |sentences|
    ensures forall i :: 0 <= i < |r| ==> r[i] == Scored(Score(sentences[i]), sentences[i])
  {
    seq(|sentences|, i requires 0 <= i < |sentences| => Scored(Score(sentences[i]), sentences[i]))
  }

  // ----------------------------------------------------------------------
  // The stable sort by descending score
  // ----------------------------------------------------------------------

  /** Inserts `e` after every entry whose score is at least its own, scanning
      from the back. */
  function InsertDesc(s: seq<Scored>, e: Scored): (r: seq<Scored>)
    ensures |r| == |s| + 1
  {
    if s == [] || s[|s| - 1].score >= e.score then s + [e]
    else InsertDesc(s[..|s| - 1], e) + [s[|s| - 1]]
  }

  /** Insertion sort by descending score, an entry landing after all earlier
      entries of the same score; a permutation of its input. */
  function StableSortDesc(s: seq<Scored>): (r: seq<Scored>)
    ensures |r| == |s|
  {
    if s == [] then []
    else InsertDesc(StableSortDesc(s[..|s| - 1]), s[|s| - 1])
  }

  lemma {:induction false} InsertDescPermutes(s: seq<Scored>, e: Scored)
    ensures multiset(InsertDesc(s, e)) == multiset(s) + multiset{e}
  {
    if s != [] && s[|s| - 1].score < e.score {
      InsertDescPermutes(s[..|s| - 1], e);
      assert s == s[..|s| - 1] + [s[|s| - 1]];
    }
  }

  /** Sorting only reorders: the result is a permutation of the input. */
  lemma {:induction false} SortDescPermutes(s: seq<Scored>)
    ensures multiset(StableSortDesc(s)) == multiset(s)
  {
    if s != [] {
      SortDescPermutes(s[..|s| - 1]);
      InsertDescPermutes(StableSortDesc(s[..|s| - 1]), s[|s| - 1]);
      assert s == s[..|s| - 1] + [s[|s| - 1]];
    }
  }

  predicate SortedDesc(s: seq<Scored>)
  {
    forall i, j :: 0 <= i < j < |s| ==> s[i].score >= s[j].score
  }

  /** The entries of `s` whose score is `k`, in their order in `s`. */
  function WithScore(s: seq<Scored>, k: int): (r: seq<Scored>)
    ensures forall x :: x in r ==> x in s && x.score == k
  {
    if s == [] then []
    else WithScore(s[..|s| - 1], k) + (if s[|s| - 1].score == k then [s[|s| - 1]] else [])
  }

  /** Inserting into a sorted sequence keeps it sorted. */
  lemma {:induction false} InsertDescSorted(s: seq<Scored>, e: Scored)
    requires SortedDesc(s)
    ensures SortedDesc(InsertDesc(s, e))
  {
    if s != [] && s[|s| - 1].score < e.score {
      var init := s[..|s| - 1];
      var last := s[|s| - 1];
      InsertDescSorted(init, e);
      InsertDescAbove(init, e, last.score);
      SortedAppend(InsertDesc(init, e), last);
    }
  }

  /** Inserting keeps every score at least `b` when all were before. */
  lemma {:induction false} InsertDescAbove(s: seq<Scored>, e: Scored, b: int)
    requires forall i :: 0 <= i < |s| ==> s[i].score >= b
    requires e.score >= b
    ensures forall i :: 0 <= i < |InsertDesc(s, e)| ==> InsertDesc(s, e)[i].score >= b
  {
    if s != [] && s[|s| - 1].score < e.score {
      InsertDescAbove(s[..|s| - 1], e, b);
    }
  }

  lemma SortedAppend(t: seq<Scored>, last: Scored)
    requires SortedDesc(t)
    requires forall i :: 0 <= i < |t| ==> t[i].score >= last.score
    ensures SortedDesc(t + [last])
  {
  }

  /** Sorting leaves the scores in descending order. */
  lemma {:induction false} SortedBySortDesc(s: seq<Scored>)
    ensures SortedDesc(StableSortDesc(s))
  {
    if s != [] {
      SortedBySortDesc(s[..|s| - 1]);
      InsertDescSorted(StableSortDesc(s[..|s| - 1]), s[|s| - 1]);
    }
  }

  lemma {:induction false} InsertDescKeepsGroups(s: seq<Scored>, e: Scored, k: int)
    ensures WithScore(InsertDesc(s, e), k) == WithScore(s, k) + (if e.score == k then [e] else [])
  {
    if s == [] || s[|s| - 1].score >= e.score {
      WithScoreAppend(s, e, k);
    } else {
      var init := s[..|s| - 1];
      var last := s[|s| - 1];
      var t := InsertDesc(init, e);
      assert InsertDesc(s, e) == t + [last];
      InsertDescKeepsGroups(init, e, k);
      WithScoreAppend(t, last, k);
      var tail := if last.score == k then [last] else [];
      var ek := if e.score == k then [e] else [];
      assert WithScore(s, k) == WithScore(init, k) + tail;
      SwapEmpty(WithScore(init, k), ek, tail);
    }
  }

  /** Two sequences of which one is empty can be appended in either order. */
  lemma SwapEmpty<T>(a: seq<T>, b: seq<T>, c: seq<T>)
    requires b == [] || c == []
    ensures a + b + c == a + c + b
  {
    if b == [] {
      assert a + b == a;
      assert a + c + b == a + c;
    } else {
      assert a + c == a;
      assert a + b + c == a + b;
    }
  }

  /** Appending an entry extends its group only. */
  lemma WithScoreAppend(t: seq<Scored>, x: Scored, k: int)
    ensures WithScore(t + [x], k) == WithScore(t, k) + (if x.score == k then [x] else [])
  {
    assert (t + [x])[..|t|] == t;
  }

  /** Sorting is stable: for every score, the entries with that score keep
      their original relative order. */
  lemma {:induction false} StableSortKeepsGroups(s: seq<Scored>, k: int)
    ensures WithScore(StableSortDesc(s), k) == WithScore(s, k)
  {
    if s != [] {
      StableSortKeepsGroups(s[..|s| - 1], k);
      InsertDescKeepsGroups(StableSortDesc(s[..|s| - 1]), s[|s| - 1], k);
    }
  }

  /** No entry has score `k`: the group is empty. */
  lemma {:induction false} WithScoreNone(s: seq<Scored>, k: int)
    requires forall j :: 0 <= j < |s| ==> s[j].score != k
    ensures WithScore(s, k) == []
  {
    if s != [] {
      WithScoreNone(s[..|s| - 1], k);
    }
  }

  /** The first entry with score `k` heads the entries with score `k`. */
  lemma {:induction false} WithScoreHead(s: seq<Scored>, k: int, f: int)
    requires 0 <= f < |s| && s[f].score == k
    requires forall j :: 0 <= j < f ==> s[j].score != k
    ensures WithScore(s, k) != [] && WithScore(s, k)[0] == s[f]
  {
    var init := s[..|s| - 1];
    if f == |s| - 1 {
      WithScoreNone(init, k);
    } else {
      WithScoreHead(init, k, f);
    }
  }

  /** Among the indices with score `k` there is a first one. */
  lemma {:induction false} FirstWithScore(s: seq<Scored>, k: int, i: int)
    requires 0 <= i < |s| && s[i].score == k
    ensures exists f :: 0 <= f <= i && s[f].score == k &&
                        forall j :: 0 <= j < f ==> s[j].score != k
  {
    if j :| 0 <= j < i && s[j].score == k {
      FirstWithScore(s, k, j);
    }
  }

  /** Sorts the entries of `a` in place, stably, by descending score. */
  method SortByScoreDesc(a: array<Scored>)
    modifies a
    ensures a[..] == StableSortDesc(old(a[..]))
  {
    ghost var orig := a[..];
    var i := 0;
    while i < a.Length
      invariant 0 <= i <= a.Length
      invariant a[..i] == StableSortDesc(orig[..i])
      invariant forall k :: i <= k < a.Length ==> a[k] == orig[k]
    {
      ghost var sorted := a[..i];
      ghost var e := a[i];
      InsertLast(a, i);
      SortStep(orig, i);
      assert e == orig[i];
      i := i + 1;
    }
    assert orig[..a.Length] == orig;
  }

  /** Sorting one more entry inserts it into the sorted prefix. */
  lemma SortStep(s: seq<Scored>, i: int)
    requires 0 <= i < |s|
    ensures StableSortDesc(s[..i + 1]) == InsertDesc(StableSortDesc(s[..i]), s[i])
  {
    assert s[..i + 1][..i] == s[..i];
  }

  /** Moves `a[i]` back past the entries of lower score before it, shifting
      them up by one: `a[..i + 1]` becomes `InsertDesc(a[..i], a[i])`. */
  method InsertLast(a: array<Scored>, i: int)
    requires 0 <= i < a.Length
    modifies a
    ensures a[..i + 1] == InsertDesc(old(a[..i]), old(a[i]))
    ensures a[i + 1..] == old(a[i + 1..])
  {
    ghost var before := a[..];
    ghost var prev := a[..i];
    var e := a[i];
    var j := i;
    while j > 0 && a[j - 1].score < e.score
      invariant 0 <= j <= i
      invariant forall k :: 0 <= k < j ==> a[k] == prev[k]
      invariant forall k :: j < k <= i ==> a[k] == prev[k - 1]
      invariant forall k :: i < k < a.Length ==> a[k] == before[k]
      invariant forall k :: j <= k < i ==> prev[k].score < e.score
    {
      a[j] := a[j - 1];
      j := j - 1;
    }
    a[j] := e;
    InsertDescAt(prev, e, j);
    Shifted(a[..], before, prev, e, i, j);
  }

  /** The array contents after the shift and the write, read as slices. */
  lemma Shifted(cur: seq<Scored>, before: seq<Scored>, prev: seq<Scored>, e: Scored, i: int, j: int)
    requires 0 <= j <= i < |cur| == |before| && prev == before[..i]
    requires forall k :: 0 <= k < j ==> cur[k] == prev[k]
    requires cur[j] == e
    requires forall k :: j < k <= i ==> cur[k] == prev[k - 1]
    requires forall k :: i < k < |cur| ==> cur[k] == before[k]
    ensures cur[..i + 1] == prev[..j] + [e] + prev[j..]
    ensures cur[i + 1..] == before[i + 1..]
  {
    assert cur[..i + 1] == prev[..j] + [e] + prev[j..];
  }


  /** Where the backward scan of `InsertDesc` stops. */
  lemma {:induction false} InsertDescAt(s: seq<Scored>, e: Scored, j: int)
    requires 0 <= j <= |s|
    requires forall k :: j <= k < |s| ==> s[k].score < e.score
    requires j > 0 ==> s[j - 1].score >= e.score
    ensures InsertDesc(s, e) == s[..j] + [e] + s[j..]
  {
    if j < |s| {
      var init := s[..|s| - 1];
      InsertDescAt(init, e, j);
      assert init[..j] == s[..j];
      assert init[j..] + [s[|s| - 1]] == s[j..];
    }
  }

  // ----------------------------------------------------------------------
  // Selection and truncation
  // ----------------------------------------------------------------------

  /** The length of Python's `s[:m]` for a list of length `n`; a negative
      `m` counts from the end. */
  function SliceLen(n: nat, m: int): (k: nat)
    ensures k <= n
    ensures m >= 0 ==> k == Min(m, n)
    ensures m < 0 ==> k == Max(0, n + m)
  {
    if m >= 0 then Min(m, n) else Max(0, n + m)
  }

  /** Python's `s[:m]`. */
  function PyPrefix<T>(s: seq<T>, m: int): seq<T>
  {
    s[..SliceLen(|s|, m)]
  }

  /** A point longer than 220 characters is cut to its first 220 and marked
      with an ellipsis; a shorter one is kept whole. */
  function Truncate(p: string): (r: string)
    ensures |r| <= MaxPointLength + |Ellipsis|
    ensures |p| <= MaxPointLength ==> r == p
    ensures |p| > MaxPointLength ==>
              |r| == MaxPointLength + |Ellipsis| &&
              r[..MaxPointLength] == p[..MaxPointLength] && r[MaxPointLength..] == Ellipsis
  {
    if |p| > MaxPointLength then p[..MaxPointLength] + Ellipsis else p
  }

  function TruncateAll(ps: seq<string>): (r: seq<string>)
    ensures |r| == |ps|
    ensures forall i :: 0 <= i < |ps| ==> r[i] == Truncate(ps[i])
  {
    seq(|ps|, i requires 0 <= i < |ps| => Truncate(ps[i]))
  }

  function SentencesOf(s: seq<Scored>): (r: seq<string>)
    ensures |r| == |s|
    ensures forall i :: 0 <= i < |s| ==> r[i] == s[i].sentence
  {
    seq(|s|, i requires 0 <= i < |s| => s[i].sentence)
  }

  /** The sentences of `text` with their scores, best first, ties in
      sentence order. */
  function Ranked(text: string): seq<Scored>
  {
    StableSortDesc(ScoreAll(Sentences(text)))
  }

  /** The extractor's result: the first `maxPoints` ranked sentences,
      truncated; if that selection is empty, the first `maxPoints` sentences
      in text order instead. */
  function KeyPoints(text: string, maxPoints: int): (points: seq<string>)
    ensures forall p :: p in points ==> |p| <= MaxPointLength + |Ellipsis|
  {
    var cleaned := Cleaned(text);
    if cleaned == [] then []
    else
      var raw := RawSentences(cleaned);
      if raw == [] then []
      else
        Select(StableSortDesc(ScoreAll(raw)), raw, maxPoints)
  }

  /** The first `maxPoints` sentences of the ranking, or of the text order if
      that slice is empty, each truncated. */
  function Select(ranked: seq<Scored>, raw: seq<string>, maxPoints: int): seq<string>
  {
    var selected := SentencesOf(PyPrefix(ranked, maxPoints));
    var chosen := if selected == [] then PyPrefix(raw, maxPoints) else selected;
    TruncateAll(chosen)
  }

  // ----------------------------------------------------------------------
  // Properties of the extractor
  // ----------------------------------------------------------------------

  /** The ranking is a stable sort of the scored sentences: a permutation,
      in descending score, each score group in sentence order. */
  lemma RankedIsStableSort(text: string, k: int)
    ensures multiset(Ranked(text)) == multiset(ScoreAll(Sentences(text)))
    ensures SortedDesc(Ranked(text))
    ensures WithScore(Ranked(text), k) == WithScore(ScoreAll(Sentences(text)), k)
  {
    SortDescPermutes(ScoreAll(Sentences(text)));
    SortedBySortDesc(ScoreAll(Sentences(text)));
    StableSortKeepsGroups(ScoreAll(Sentences(text)), k);
  }

  /** A text that is blank once cleaned has no sentence. */
  lemma NoSentencesInBlank(text: string)
    ensures Cleaned(text) == [] ==> Sentences(text) == []
  {
    if Cleaned(text) == [] {
      assert Split(Cleaned(text), {'.'}) == [[]];
      assert IsBlank([]);
    }
  }

  /** The points are the first `maxPoints` ranked sentences, truncated; the
      fallback to text order never changes the result, since it is taken only
      when the slice it takes is empty too. */
  lemma KeyPointsAreTopRanked(text: string, maxPoints: int)
    ensures |KeyPoints(text, maxPoints)| == SliceLen(|Sentences(text)|, maxPoints)
    ensures forall i :: 0 <= i < |KeyPoints(text, maxPoints)| ==>
              KeyPoints(text, maxPoints)[i] == Truncate(Ranked(text)[i].sentence)
  {
    if Sentences(text) == [] {
      NoSentencesNoPoints(text, maxPoints);
    } else {
      SomeSentencesTopRanked(text, maxPoints);
    }
  }

  /** Without sentences there are no points. */
  lemma NoSentencesNoPoints(text: string, maxPoints: int)
    requires Sentences(text) == []
    ensures KeyPoints(text, maxPoints) == []
  {
  }

  /** With sentences, the points are read off the ranking. */
  lemma SomeSentencesTopRanked(text: string, maxPoints: int)
    requires Sentences(text) != []
    ensures |KeyPoints(text, maxPoints)| == SliceLen(|Sentences(text)|, maxPoints)
    ensures forall i :: 0 <= i < |KeyPoints(text, maxPoints)| ==>
              KeyPoints(text, maxPoints)[i] == Truncate(Ranked(text)[i].sentence)
  {
    NoSentencesInBlank(text);
    assert KeyPoints(text, maxPoints) == Select(Ranked(text), Sentences(text), maxPoints);
    SelectTop(Ranked(text), Sentences(text), maxPoints);
  }

  /** The selection from a ranking of as many entries as there are sentences. */
  lemma SelectTop(ranked: seq<Scored>, raw: seq<string>, maxPoints: int)
    requires |ranked| == |raw|
    ensures |Select(ranked, raw, maxPoints)| == SliceLen(|raw|, maxPoints)
    ensures forall i :: 0 <= i < |Select(ranked, raw, maxPoints)| ==>
              Select(ranked, raw, maxPoints)[i] == Truncate(ranked[i].sentence)
  {
    var selected := SentencesOf(PyPrefix(ranked, maxPoints));
    if selected == [] {
      assert PyPrefix(raw, maxPoints) == [];
    }
  }

  /** The result is empty exactly when the text has no non-blank sentence
      (in particular when it is blank once line breaks become spaces), or
      when `maxPoints` leaves nothing of the slice. */
  lemma KeyPointsEmpty(text: string, maxPoints: int)
    ensures IsBlank(ReplaceChar(text, '\n', ' ')) ==> KeyPoints(text, maxPoints) == []
    ensures (forall j :: 0 <= j < |Split(Cleaned(text), {'.'})| ==>
               IsBlank(Split(Cleaned(text), {'.'})[j])) ==>
              KeyPoints(text, maxPoints) == []
    ensures KeyPoints(text, maxPoints) == [] <==>
              Sentences(text) == [] || SliceLen(|Sentences(text)|, maxPoints) == 0
  {
    KeyPointsAreTopRanked(text, maxPoints);
    NoSentencesInBlank(text);
    StrippedNonBlankEmpty(Split(Cleaned(text), {'.'}));
  }

  /** At most one point per sentence; for a non-negative `maxPoints`, exactly
      `maxPoints` points or one per sentence if fewer; for a negative one,
      Python's slice drops that many from the end of the ranking. */
  lemma KeyPointsCount(text: string, maxPoints: int)
    ensures |KeyPoints(text, maxPoints)| <= |Sentences(text)|
    ensures maxPoints >= 0 ==> |KeyPoints(text, maxPoints)| == Min(maxPoints, |Sentences(text)|)
    ensures maxPoints < 0 ==> |KeyPoints(text, maxPoints)| == Max(0, |Sentences(text)| + maxPoints)
  {
    KeyPointsAreTopRanked(text, maxPoints);
  }

  /** With a sentence and a positive `maxPoints` the ranked selection is not
      empty, so the fallback to text order is not taken. */
  lemma FallbackNotTaken(text: string, maxPoints: int)
    requires Sentences(text) != [] && maxPoints >= 1
    ensures SentencesOf(PyPrefix(Ranked(text), maxPoints)) != []
  {
  }

  /** Every ranked sentence is one of the text's sentences. */
  lemma RankedSentencesAreSentences(text: string)
    ensures forall i :: 0 <= i < |Ranked(text)| ==> Ranked(text)[i].sentence in Sentences(text)
  {
    SortDescPermutes(ScoreAll(Sentences(text)));
    PermutedSentences(Sentences(text), Ranked(text));
  }

  /** The generic form of the above, for any permutation of the scored sentences. */
  lemma PermutedSentences(raw: seq<string>, ranked: seq<Scored>)
    requires multiset(ranked) == multiset(ScoreAll(raw))
    ensures forall i :: 0 <= i < |ranked| ==> ranked[i].sentence in raw
  {
    var scored := ScoreAll(raw);
    forall i | 0 <= i < |ranked|
      ensures ranked[i].sentence in raw
    {
      var x := ranked[i];
      assert x in multiset(ranked);
      var j :| 0 <= j < |scored| && scored[j] == x;
      assert raw[j] == x.sentence;
    }
  }

  /** Every point is a sentence of the text, cut to 220 characters plus
      "..." if longer; no point holds a line break. */
  lemma PointsComeFromSentences(text: string, maxPoints: int)
    ensures forall k :: 0 <= k < |KeyPoints(text, maxPoints)| ==>
              TruncationOf(KeyPoints(text, maxPoints)[k], Sentences(text)) &&
              Avoids(KeyPoints(text, maxPoints)[k], {'\n'})
  {
    KeyPointsAreTopRanked(text, maxPoints);
    RankedSentencesAreSentences(text);
    SentencesAreTrimmedPieces(text);
    TruncatedSentences(KeyPoints(text, maxPoints), Ranked(text), Sentences(text));
  }

  /** `p` is one of the sentences, truncated. */
  predicate TruncationOf(p: string, sentences: seq<string>)
  {
    exists j :: 0 <= j < |sentences| && p == Truncate(sentences[j])
  }

  /** Truncations of the leading ranked entries are truncations of sentences
      and, like the sentences, hold no line break. */
  lemma TruncatedSentences(points: seq<string>, ranked: seq<Scored>, sentences: seq<string>)
    requires |points| <= |ranked|
    requires forall i :: 0 <= i < |points| ==> points[i] == Truncate(ranked[i].sentence)
    requires forall i :: 0 <= i < |ranked| ==> ranked[i].sentence in sentences
    requires forall j :: 0 <= j < |sentences| ==>
               sentences[j] != [] && Strip(sentences[j]) == sentences[j] &&
               Avoids(sentences[j], {'.', '\n'})
    ensures forall k :: 0 <= k < |points| ==>
              TruncationOf(points[k], sentences) && Avoids(points[k], {'\n'})
  {
    forall k | 0 <= k < |points|
      ensures TruncationOf(points[k], sentences) && Avoids(points[k], {'\n'})
    {
      var j :| 0 <= j < |sentences| && sentences[j] == ranked[k].sentence;
      TruncateKeepsLines(sentences[j]);
      assert points[k] == Truncate(sentences[j]);
    }
  }

  /** Truncation adds dots only, so a sentence without line break stays without. */
  lemma TruncateKeepsLines(s: string)
    requires Avoids(s, {'.', '\n'})
    ensures Avoids(Truncate(s), {'\n'})
  {
    var p := Truncate(s);
    forall i | 0 <= i < |p|
      ensures p[i] != '\n'
    {
      if |s| > MaxPointLength && i >= MaxPointLength {
        assert p[i] == Ellipsis[i - MaxPointLength];
      }
    }
  }

  /** Asking for fewer points gives a prefix of the longer answer. */
  lemma KeyPointsPrefix(text: string, m: int, n: int)
    requires 0 <= m <= n
    ensures KeyPoints(text, m) == PyPrefix(KeyPoints(text, n), m)
  {
    KeyPointsAreTopRanked(text, m);
    KeyPointsAreTopRanked(text, n);
    PrefixOfTop(KeyPoints(text, m), KeyPoints(text, n), Ranked(text), |Sentences(text)|, m, n);
  }

  lemma PrefixOfTop(short: seq<string>, long: seq<string>, ranked: seq<Scored>, count: nat, m: int, n: int)
    requires 0 <= m <= n
    requires |short| == SliceLen(count, m) && |long| == SliceLen(count, n)
    requires |long| <= |ranked|
    requires forall i :: 0 <= i < |short| ==> short[i] == Truncate(ranked[i].sentence)
    requires forall i :: 0 <= i < |long| ==> long[i] == Truncate(ranked[i].sentence)
    ensures short == PyPrefix(long, m)
  {
  }

  /** The first point comes from the best-scoring sentence, the earliest one
      among equally good sentences. */
  lemma TopPointIsFirstBest(text: string, maxPoints: int)
    requires Sentences(text) != [] && maxPoints >= 1
    ensures |KeyPoints(text, maxPoints)| >= 1
    ensures var raw := Sentences(text);
            exists i :: 0 <= i < |raw| && KeyPoints(text, maxPoints)[0] == Truncate(raw[i]) &&
              (forall j :: 0 <= j < |raw| ==> Score(raw[j]) <= Score(raw[i])) &&
              (forall j :: 0 <= j < i ==> Score(raw[j]) < Score(raw[i]))
  {
    var f := BestRanked(text);
    KeyPointsAreTopRanked(text, maxPoints);
  }

  /** The head of the ranking is the first of the best-scoring sentences. */
  lemma BestRanked(text: string) returns (f: int)
    requires Sentences(text) != []
    ensures |Ranked(text)| == |Sentences(text)|
    ensures 0 <= f < |Sentences(text)| && Ranked(text)[0].sentence == Sentences(text)[f]
    ensures forall j :: 0 <= j < |Sentences(text)| ==>
              Score(Sentences(text)[j]) <= Score(Sentences(text)[f])
    ensures forall j :: 0 <= j < f ==> Score(Sentences(text)[j]) < Score(Sentences(text)[f])
  {
    var ranked := Ranked(text);
    RankedIsStableSort(text, ranked[0].score);
    f := FirstRankedIsBest(Sentences(text), ranked);
  }

  /** The generic form of the above, for any stable descending sort of the
      scored sentences. */
  lemma FirstRankedIsBest(raw: seq<string>, ranked: seq<Scored>) returns (f: int)
    requires ranked != []
    requires multiset(ranked) == multiset(ScoreAll(raw))
    requires SortedDesc(ranked)
    requires WithScore(ranked, ranked[0].score) == WithScore(ScoreAll(raw), ranked[0].score)
    ensures 0 <= f < |raw| && ranked[0].sentence == raw[f]
    ensures forall j :: 0 <= j < |raw| ==> Score(raw[j]) <= Score(raw[f])
    ensures forall j :: 0 <= j < f ==> Score(raw[j]) < Score(raw[f])
  {
    var scored := ScoreAll(raw);
    f := FirstOfStableSort(scored, ranked);
    assert scored[f] == Scored(Score(raw[f]), raw[f]);
  }

  /** The head of a descending permutation has the highest score. */
  lemma HeadIsBest(scored: seq<Scored>, ranked: seq<Scored>)
    requires ranked != []
    requires multiset(ranked) == multiset(scored)
    requires SortedDesc(ranked)
    ensures forall j :: 0 <= j < |scored| ==> scored[j].score <= ranked[0].score
  {
    forall j | 0 <= j < |scored|
      ensures scored[j].score <= ranked[0].score
    {
      assert scored[j] in multiset(ranked);
      var m :| 0 <= m < |ranked| && ranked[m] == scored[j];
    }
  }

  /** Where the head of a permutation sits in the original. */
  lemma HeadIndex(scored: seq<Scored>, ranked: seq<Scored>) returns (i: int)
    requires ranked != []
    requires multiset(ranked) == multiset(scored)
    ensures 0 <= i < |scored| && scored[i] == ranked[0]
  {
    assert ranked[0] in multiset(scored);
    i :| 0 <= i < |scored| && scored[i] == ranked[0];
  }

  /** The head of a stable descending sort is the first entry of highest
      score in the original order. */
  lemma FirstOfStableSort(scored: seq<Scored>, ranked: seq<Scored>) returns (f: int)
    requires ranked != []
    requires multiset(ranked) == multiset(scored)
    requires SortedDesc(ranked)
    requires WithScore(ranked, ranked[0].score) == WithScore(scored, ranked[0].score)
    ensures 0 <= f < |scored| && scored[f] == ranked[0]
    ensures forall j :: 0 <= j < |scored| ==> scored[j].score <= ranked[0].score
    ensures forall j :: 0 <= j < f ==> scored[j].score < ranked[0].score
  {
    var top := ranked[0];
    var k := top.score;
    HeadIsBest(scored, ranked);
    var i0 := HeadIndex(scored, ranked);
    FirstWithScore(scored, k, i0);
    f :| 0 <= f <= i0 && scored[f].score == k &&
         forall j :: 0 <= j < f ==> scored[j].score != k;
    WithScoreHead(scored, k, f);
    WithScoreHead(ranked, k, 0);
  }

  /** A single trimmed sentence without '.', line breaks or more than 220
      characters comes back unchanged. */
  lemma SingleSentenceUnchanged(text: string, maxPoints: int)
    requires text != [] && Strip(text) == text
    requires '.' !in text && '\n' !in text && |text| <= MaxPointLength
    requires maxPoints >= 1
    ensures KeyPoints(text, maxPoints) == [text]
  {
    SingleSentence(text);
    KeyPointsAreTopRanked(text, maxPoints);
    RankedSentencesAreSentences(text);
    OnlyPoint(KeyPoints(text, maxPoints), Ranked(text), Sentences(text), maxPoints);
  }

  /** One sentence short enough to keep whole is the only point. */
  lemma OnlyPoint(points: seq<string>, ranked: seq<Scored>, sentences: seq<string>, maxPoints: int)
    requires maxPoints >= 1 && |sentences| == 1 && |sentences[0]| <= MaxPointLength
    requires |points| == SliceLen(|sentences|, maxPoints) && |points| <= |ranked|
    requires forall i :: 0 <= i < |points| ==> points[i] == Truncate(ranked[i].sentence)
    requires forall i :: 0 <= i < |ranked| ==> ranked[i].sentence in sentences
    ensures points == sentences
  {
  }

  /** A trimmed text without '.' or line break is its one sentence. */
  lemma SingleSentence(text: string)
    requires text != [] && Strip(text) == text
    requires '.' !in text && '\n' !in text
    ensures Sentences(text) == [text]
  {
    ReplaceAbsent(text, '\n', ' ');
    assert Cleaned(text) == text;
    NoDot(text);
    StrippedSingle(text);
  }

  lemma NoDot(text: string)
    requires '.' !in text
    ensures Split(text, {'.'}) == [text]
  {
    forall i | 0 <= i < |text|
      ensures text[i] !in {'.'}
    {
      assert text[i] in text;
    }
    SplitWithoutSeparator(text, {'.'});
  }

  /** A single piece that is its own non-empty strip is kept as it is. */
  lemma StrippedSingle(p: string)
    requires p != [] && Strip(p) == p
    ensures StrippedNonBlank([p]) == [p]
  {
    assert !IsBlank(p);
    assert [p][1..] == [];
  }

  /** The extractor as the backend runs it: a loop that scores each sentence,
      an in-place stable sort, then selection and truncation. */
  method ExtractKeyPointsLocally(text: string, maxPoints: int) returns (points: seq<string>)
    ensures points == KeyPoints(text, maxPoints)
  {
    var cleaned := Cleaned(text);
    if cleaned == [] {
      return [];
    }
    var rawSentences := RawSentences(cleaned);
    if rawSentences == [] {
      return [];
    }
    var scored := ScoreSentences(rawSentences);
    var a := new Scored[|scored|](i requires 0 <= i < |scored| => scored[i]);
    assert a[..] == scored;
    SortByScoreDesc(a);
    points := Select(a[..], rawSentences, maxPoints);
  }

  /** The scoring loop: each sentence paired with its score, in order. */
  method ScoreSentences(rawSentences: seq<string>) returns (scored: seq<Scored>)
    ensures scored == ScoreAll(rawSentences)
  {
    scored := [];
    for i := 0 to |rawSentences|
      invariant |scored| == i
      invariant forall k :: 0 <= k < i ==>
                  scored[k] == Scored(Score(rawSentences[k]), rawSentences[k])
    {
      var sentence := rawSentences[i];
      var score := 0;
      var lower := Lower(sentence);
      if ContainsAny(lower, Keywords) {
        score := score + 2;
      }
      score := score + Min(|sentence| / 80, 2);
      scored := scored + [Scored(score, sentence)];
    }
  }
}
