# NeuroLens backend: a verified model

This project models the logic of the NeuroLens companion backend (`backend.py`), a small web service for a child's sensory-comfort dashboard and a study helper. It covers three areas:

- **The shared environment record.** The record holds the child's comfort mode, two comfort thresholds and two simulated sensor readings. The operations that change it are the setters, the mock environment regenerator, mock threshold detection, auto-adjust and the state poll. The record is a `class` whose methods update its fields in place. Each state-changing method gives the new record as an `EnvState` value in terms of the old one: through `Regenerate`, `Detect` or `AutoAdjusted`, or as a record update of the old value for the setters. `GetThresholds` is specified by the fields it returns.
- **The offline text heuristics.**
  - The mood-bucket companion reply.
  - The key-point extractor: a scoring loop, an in-place stable sort by descending score on an array, then selection and truncation.
  - The offline study answer.
- **The three text endpoints.** `/chat`, `/study/highlights` and `/study/chat`: their empty-input guards and how they choose between the language model's answer and the offline fallback.

Every `random.randint` draw is a parameter whose range is a precondition. The one `random.choice` is a parameter `pick`, and the contract is that the reply is a member of its bucket. The language model's answer is the parameter `model: Option<string>`. `None` stands for every way the call fails: no API key, an exception, or no content.

Python's `str` operations are modelled over ASCII in module `PyText`: `strip`, `strip(chars)`, `lower`, `in`, `replace`, `split` and `join`. `PyText` also holds the line-break class `LineBreaks`, and `Split` on it stands for `splitlines`. The non-blank filter and the bullet cleaning that follow it in the highlights endpoint are `Endpoints.BulletLines`. `Endpoints.ModelPoints` combines the two.

Modules:

| module | file | models |
|---|---|---|
| `Wrappers` | wrappers.dfy | optional values |
| `PyText` | pytext.dfy | the string operations the backend uses |
| `Environment` | environment.dfy | the shared state record and its endpoints |
| `LocalReplies` | replies.dfy | `generate_local_reply` |
| `KeyPointExtraction` | keypoints.dfy | `extract_key_points_locally` |
| `StudyFallback` | study.dfy | `study_fallback_answer` |
| `Endpoints` | endpoints.dfy | `chat`, `study_highlights`, `study_chat` |

## Model

| member | source | states |
|---|---|---|
| Environment.Environment.constructor | backend.py:15-21 | The record starts in mode "Neutral" with thresholds 50 and 40 and readings 40 and 25. |
| Environment.Regenerate | backend.py:112-130 | Both regenerated readings are at least 10 and at most their base draw. In Focus mode brightness is at most 65. Outside Calm and Focus the draws are kept as they are. Mode and thresholds are untouched. |
| Environment.ModeOrdering | backend.py:117-130 | For the same draws, Calm readings are no higher than Focus readings, and Focus readings no higher than Neutral ones. |
| Environment.Environment.GenerateEnvironment | backend.py:112-130 | The new record is `Regenerate` of the old one, so only the two readings change. |
| Environment.Detect | backend.py:136-155 | Calm lowers the brightness threshold from the current reading, but never below 10. Focus raises it, capped at 85. Any other mode lowers it by at most 10. The noise threshold is at least 10 and never above the noise reading, or 10 if higher; Calm and Focus lower it by at least 5. The new readings lie in the jitter window around the new thresholds, brightness capped at 100 and noise at least 0. |
| Environment.Environment.DetectThresholds | backend.py:133-157 | The new record is `Detect` of the old one, and the returned pair is the new thresholds. |
| Environment.Environment.GetThresholds | backend.py:160-165 | Returns the two thresholds. |
| Environment.Environment.SetEnvironment | backend.py:168-172 | Only the two readings change, to the given values. |
| Environment.Environment.SetChildMode | backend.py:174-177 | Only the mode changes, to any given text, and the mode is echoed back. |
| Environment.Environment.SetThresholds | backend.py:179-183 | Only the two thresholds change, to the given values. |
| Environment.AutoAdjusted | backend.py:185-196 | Readings never increase. Afterwards brightness is at most max(10, threshold − 5) and noise at most max(10, threshold − 3). Each reading is either unchanged or equal to its target. Mode and thresholds are unchanged. |
| Environment.AdjustTarget | backend.py:192-193 | The level a reading is pulled down to: its threshold less the margin, but never below 10. |
| Environment.AutoAdjustIdempotent | backend.py:185-196 | A second auto-adjust changes nothing. |
| Environment.AutoAdjustClearsExceeded | backend.py:185-196 | With both thresholds at least 10, an adjusted record is never reported as exceeded. |
| Environment.AutoAdjustFloorCanExceed | backend.py:192-196 | With a brightness threshold of 5, the floor of 10 leaves the record exceeded after adjusting. |
| Environment.Environment.AutoAdjust | backend.py:185-202 | The new record is `AutoAdjusted` of the old one, and the method returns the new readings. |
| Environment.Report | backend.py:209-221 | The report copies the record, and `exceeded` holds iff a reading is above its threshold. |
| Environment.ExceededByBrightness | backend.py:207-212 | Calm mode, thresholds 30 and 20, draws 70 and 30: the readings become 50 and 10, and the poll reports exceeded. |
| Environment.Environment.GetState | backend.py:204-221 | The readings are regenerated first. `exceeded` is then judged on the fresh readings against the thresholds. |
| Environment.Exceeded | backend.py:209-212 | A record is exceeded iff brightness is above its threshold or noise is above its threshold. Partner: `Report` and `AutoAdjustClearsExceeded`. |
| LocalReplies.Classify | backend.py:43-64 | The buckets are tried in the order sad, angry, scared, happy on the lower-cased message. The bucket is Sad iff a sad keyword occurs. It is Angry iff no sad keyword occurs but an angry one does. It is Scared iff neither a sad nor an angry keyword occurs but a scared one does. It is Happy iff only a happy keyword occurs among the four lists. It is Other iff no keyword of any bucket occurs. |
| LocalReplies.RepliesFor | backend.py:45-68 | Each bucket's replies are the source's reply strings for that bucket, in the source's order. The ensures states only that every bucket has at least two replies. |
| LocalReplies.GenerateLocalReply | backend.py:42-68 | The reply is one of the replies of the message's bucket and starts with a visible character. |
| LocalReplies.RepliesNotBlank | backend.py:45-68 | Every reply is non-empty and starts with a visible character. |
| LocalReplies.EveryReplyReachable | backend.py:45-68 | Every reply of the message's bucket is produced by some random choice. |
| LocalReplies.RepliesDisjoint | backend.py:45-68 | No reply belongs to two buckets. |
| LocalReplies.ReplyRevealsMood | backend.py:42-68 | The bucket of the returned reply is the bucket the message was classified into. |
| LocalReplies.SadNeverHappy | backend.py:44-48 | A message with a sad keyword gets a sad reply and never a happy one, whatever else it contains. |
| PyText.TrimStart | backend.py:71 | The result is a suffix of the input that does not start with a trimmed character. |
| PyText.WhitespaceChars | backend.py:71 | The characters `strip()` removes, written out: tab, line feed, vertical tab, form feed, carriage return, 0x1c to 0x1f, and space (Python's `isspace` on ASCII). |
| PyText.LineBreakChars | backend.py:282 | The characters `splitlines()` breaks at, written out: line feed, vertical tab, form feed, carriage return and 0x1c to 0x1e. All are whitespace, and 0x1f and space are not line breaks. |
| PyText.IsBlank | backend.py:72-75 | A text is blank iff every character is whitespace, i.e. iff its strip is empty and so false in Python (used again at backend.py:234, 250, 263, 282, 295, 324). |
| PyText.Min | backend.py:86 | Python's `min` of two integers. |
| PyText.Max | backend.py:129-130 | Python's `max` of two integers. |
| PyText.TrimEnd | backend.py:71 | The result is a prefix of the input that does not end with a trimmed character. |
| PyText.StripChars | backend.py:282 | `strip(chars)` gives a contiguous slice of the input that neither starts nor ends with one of the characters. Everything cut off before and after the slice is one of the characters. The result is empty iff every character is one of them. |
| PyText.Strip | backend.py:71 | `strip()` gives a contiguous slice of the input that neither starts nor ends with whitespace. Everything cut off is whitespace. The result is empty iff the input is blank. |
| PyText.StripIdempotent | backend.py:75 | Stripping twice is stripping once. |
| PyText.StripAvoids | backend.py:75 | Stripping adds no character. |
| PyText.Lower | backend.py:43 | Lower-casing keeps the length, maps A–Z to a–z and keeps every other character. |
| PyText.Contains | backend.py:44-63 | Python's `sub in s`: `sub` occurs at some index of `s`. |
| PyText.ContainsAny | backend.py:44-59 | Python's `any(k in m for k in keys)`: some key of the list occurs in the text. |
| PyText.ReplaceChar | backend.py:71 | Replacing one character by another keeps the length. Every occurrence of the old character becomes the new one, and every other character is kept. |
| PyText.Split | backend.py:75 | A split has at least one piece, and no piece holds a separator. |
| PyText.Join | backend.py:101-108 | Python's `sep.join(parts)`: the parts with the separator between each two. Partners: `JoinSplit` and `SplitJoin`. |
| PyText.JoinSplit | backend.py:75 | Joining the pieces of a split with the separator gives back the text. |
| PyText.SplitJoin | backend.py:101 | Splitting a join of separator-free pieces gives back the pieces. |
| KeyPointExtraction.Cleaned | backend.py:71 | The cleaned text holds no '\n'. Other line-break characters such as '\r' are kept, as in the source. |
| KeyPointExtraction.StrippedNonBlank | backend.py:75 | The stripped pieces that are not blank, in order: there are never more of them than pieces. Partners: `StrippedNonBlankEmpty`, `SentencesAreTrimmedPieces`. |
| KeyPointExtraction.RawSentences | backend.py:75 | The non-blank stripped '.'-pieces of the cleaned text. Partner: `SentencesAreTrimmedPieces`. |
| KeyPointExtraction.Sentences | backend.py:71-75 | The sentences the extractor scores, from the raw text. Partners: `SentencesAreTrimmedPieces`, `SingleSentence`. |
| KeyPointExtraction.SentencesAreTrimmedPieces | backend.py:71-75 | Every sentence is non-empty, is its own strip, and holds neither '.' nor '\n'. |
| KeyPointExtraction.StrippedNonBlankEmpty | backend.py:75-77 | No sentence is kept exactly when every '.'-separated piece is blank. |
| KeyPointExtraction.Score | backend.py:82-86 | A score lies in 0..4. |
| KeyPointExtraction.HasKeyword | backend.py:83-84 | A sentence has a keyword iff one of the seven study keywords occurs in its lower-cased form. |
| KeyPointExtraction.ScoreTable | backend.py:84-86 | Under 80 characters the score is 0, or 2 with a keyword. From 80 to 159 it is 1 or 3. From 160 it is 2 or 4. |
| KeyPointExtraction.ScoreAll | backend.py:80-87 | Each sentence is paired with its score, in sentence order. |
| KeyPointExtraction.ScoreSentences | backend.py:80-87 | The scoring loop computes exactly `ScoreAll`. |
| KeyPointExtraction.InsertDesc | backend.py:89 | Inserting an entry after every entry of at least its score gives one more entry. Partners: `InsertDescPermutes`, `InsertDescSorted`, `InsertDescKeepsGroups`. |
| KeyPointExtraction.StableSortDesc | backend.py:89 | The stable sort by descending score keeps the length. Partners: `SortDescPermutes`, `SortedBySortDesc`, `StableSortKeepsGroups`. |
| KeyPointExtraction.SortDescPermutes | backend.py:89 | The sort is a permutation. |
| KeyPointExtraction.SortedBySortDesc | backend.py:89 | The sort orders by descending score. |
| KeyPointExtraction.StableSortKeepsGroups | backend.py:89 | The sort is stable: for each score, the entries with that score keep their original relative order. |
| KeyPointExtraction.SortByScoreDesc | backend.py:89 | The in-place array sort leaves the array equal to `StableSortDesc` of its old contents. |
| KeyPointExtraction.InsertLast | backend.py:89 | One insertion step moves the last entry back past the lower-scored entries before it. The entries after it are unchanged. |
| KeyPointExtraction.RankedIsStableSort | backend.py:81-89 | The ranking is a permutation of the scored sentences, in descending score, with ties in sentence order. |
| KeyPointExtraction.Ranked | backend.py:81-89 | The sentences with their scores, sorted by descending score with ties in sentence order. Partner: `RankedIsStableSort`. |
| KeyPointExtraction.Truncate | backend.py:93 | A point of at most 220 characters is unchanged. A longer one becomes its first 220 characters followed by "...". The result is at most 223 characters. |
| KeyPointExtraction.SliceLen | backend.py:90 | The length of a Python prefix slice, including negative bounds. |
| KeyPointExtraction.PyPrefix | backend.py:90-92 | Python's `xs[:m]`: the first `SliceLen(|xs|, m)` elements, so a negative `m` drops that many from the end (also at backend.py:108). |
| KeyPointExtraction.SentencesOf | backend.py:90 | The sentence of each scored entry, in order. |
| KeyPointExtraction.TruncateAll | backend.py:93 | Each point truncated, in order, the same number of points. |
| KeyPointExtraction.KeyPoints | backend.py:70-93 | Every point is at most 223 characters. |
| KeyPointExtraction.Select | backend.py:90-93 | The first `max_points` entries of the ranking, or the first `max_points` sentences if that slice is empty, each truncated. Partners: `SelectTop`, `KeyPointsAreTopRanked`. |
| KeyPointExtraction.KeyPointsAreTopRanked | backend.py:89-93 | The points are the first `max_points` ranked sentences, truncated. The fallback never changes the result. |
| KeyPointExtraction.SelectTop | backend.py:90-93 | When the ranking has one entry per sentence, selection yields the prefix of the ranking, truncated. |
| KeyPointExtraction.KeyPointsEmpty | backend.py:71-77 | The result is empty when the text is blank after replacing each '\n' with a space, and when every piece is blank. It is empty exactly when there is no sentence or the slice bound leaves nothing. |
| KeyPointExtraction.KeyPointsCount | backend.py:90 | There is at most one point per sentence. The count is min(max_points, sentences) for a non-negative bound, and Python's slice length for a negative one. |
| KeyPointExtraction.FallbackNotTaken | backend.py:91-92 | With a sentence and `max_points` ≥ 1, the ranked selection is not empty. |
| KeyPointExtraction.RankedSentencesAreSentences | backend.py:75-89 | Every ranked entry is one of the text's sentences. |
| KeyPointExtraction.PointsComeFromSentences | backend.py:75-93 | Every point is a truncation of one of the text's sentences, and no point holds '\n'. |
| KeyPointExtraction.KeyPointsPrefix | backend.py:90 | Asking for fewer points gives a prefix of the longer answer. |
| KeyPointExtraction.TopPointIsFirstBest | backend.py:81-93 | The first point comes from a sentence of the highest score, the earliest such sentence. |
| KeyPointExtraction.FirstOfStableSort | backend.py:89 | The head of a stable descending sort is the first entry of highest score in the original order. |
| KeyPointExtraction.SingleSentence | backend.py:71-75 | A trimmed text without '.' or '\n' is its own single sentence. |
| KeyPointExtraction.SingleSentenceUnchanged | backend.py:70-93 | Such a text of at most 220 characters comes back as the one point, unchanged. |
| KeyPointExtraction.ExtractKeyPointsLocally | backend.py:70-93 | The imperative extractor, with its scoring loop and in-place sort, returns exactly `KeyPoints`. |
| StudyFallback.IntentOf | backend.py:97-103 | Summarize iff the lower-cased question contains "summar". Explain iff it does not, but contains "explain". |
| StudyFallback.Bulleted | backend.py:101-108 | Each point as a "- " line, one line per point, in order. |
| StudyFallback.BulletList | backend.py:101-108 | A title, then "\n- " before each point: the title line followed by one bullet line per point (partners `BulletsJoin`, `BulletListLines`). |
| StudyFallback.Answer | backend.py:99-109 | The answer is non-empty and starts with a visible character. It is a need-material reply iff there are no points. |
| StudyFallback.StudyFallbackAnswer | backend.py:96-109 | The offline answer is non-empty and starts with a visible character. |
| StudyFallback.BulletsJoin | backend.py:101 | The bullet separator turns the points into "- " lines joined by '\n'. |
| StudyFallback.BulletListLines | backend.py:101 | A title plus bullet list splits back into the title line and one "- " line per point. |
| StudyFallback.SummaryAnswer | backend.py:98-101 | A question containing "summar" is answered with "Quick summary:" and one bullet per key point. There are 1 to 4 points. |
| StudyFallback.ExplanationAnswer | backend.py:103-105 | An "explain" question without "summar" is answered with the prefix plus the top key point, and the answer holds no '\n'. |
| StudyFallback.GeneralAnswer | backend.py:107-108 | Any other question is answered with the title and the first three key points at most. |
| StudyFallback.NeedMaterialAnswer | backend.py:99-109 | The answer asks for material iff the text has no sentence, and the request matches the kind of question. |
| Endpoints.GivenMessage | backend.py:231-232 | The message is the query parameter if non-empty, else the body's message if non-empty, else "". |
| Endpoints.OrEmpty | backend.py:292-293 | Python's `x or ""` for an optional string: the string if present, else "". |
| Endpoints.Given | backend.py:231-232 | Python's truthiness of an optional string: present and non-empty. |
| Endpoints.Chat | backend.py:228-257 | The `/chat` reply is never blank. |
| Endpoints.ChatReply | backend.py:234-257 | The reply to the stripped message is never blank. |
| Endpoints.ChatWithoutMessage | backend.py:232-235 | A blank message gets the fixed reply, whatever the model and the random choice. |
| Endpoints.ChatQueryOverridesBody | backend.py:231-232 | A non-empty query parameter makes the body irrelevant. |
| Endpoints.ChatKeepsModelAnswer | backend.py:248-250 | A non-blank model answer is returned as it is, unstripped. |
| Endpoints.ChatFallsBackLocally | backend.py:250-255 | When the model fails or answers blank, the reply is the offline reply to the stripped message. |
| Endpoints.CleanLine | backend.py:282 | A cleaned line is its own strip and holds only characters of the line. |
| Endpoints.BulletLines | backend.py:282 | The non-blank lines, each cleaned: never more points than lines. Partners: `BulletLinesChars`, `BulletLinesStripped`, `BulletLinesOfBulleted`. |
| Endpoints.ModelPoints | backend.py:281-282 | At most five highlights are read off the model's answer. |
| Endpoints.ModelPointsLines | backend.py:281-282 | No highlight read off the answer holds a line break, and each is its own strip. |
| Endpoints.ModelPointsEmpty | backend.py:281-283 | The answer yields highlights iff it is not blank. |
| Endpoints.ModelPointsOfBulletList | backend.py:281-282 | An answer written as "- " bullet lines of clean points gives back its first five points. |
| Endpoints.BulletLineClean | backend.py:282 | Cleaning "- " plus a clean point gives back the point. |
| Endpoints.StudyHighlights | backend.py:260-287 | There are at most five highlights. A message is present iff the text is blank, and then the highlights are empty. |
| Endpoints.HighlightsOffline | backend.py:266-285 | Without the model, the highlights are the five top key points of the stripped text. |
| Endpoints.HighlightsPreferModel | backend.py:281-283 | A non-blank model answer wins, and then the highlights do not depend on the text. |
| Endpoints.HighlightsBlankAnswer | backend.py:283 | A blank model answer leaves the local extraction in place. |
| Endpoints.StudyChat | backend.py:290-329 | The `/study/chat` reply is non-empty and starts with a visible character. |
| Endpoints.StudyChatWithoutQuestion | backend.py:292-296 | A blank question gets the fixed reply, whatever the text and the model. |
| Endpoints.StudyChatKeepsModelAnswer | backend.py:323-324 | A non-blank model answer is returned stripped. |
| Endpoints.StudyChatFallsBack | backend.py:323-327 | When the model fails or answers blank, the reply is the offline answer to the stripped question about the stripped text. |

## Left out

- The Groq client, the prompts and the model name (backend.py:11-13, 23-26, 241-248, 271-281, 303-323) are external network calls. Only their outcome is modelled, as an optional answer. The request truncations `text[:8000]` and `study_text[:12000]` only shape the prompt, so they are not modelled.
- FastAPI routing, the pydantic request classes, `load_dotenv` and `/healthz` are framework glue. Request fields that may be absent are `Option<string>` parameters.
- `random.randint` and `random.choice` are parameters: draws with their ranges as preconditions, and `pick` for the choice.
- Concurrent requests racing on the shared record are out of scope. The model is sequential.
- The `state.get(key, default)` defaults are not modelled, because every key is present from the start and no operation removes one.
- Unicode is left out. `lower`, `strip` and `splitlines` are modelled over ASCII: non-ASCII characters are never whitespace and never line breaks (Python also breaks lines at U+0085, U+2028 and U+2029), and they are not case-folded.
- `splitlines` is modelled as a cut at every line-break character. This gives the same lines as Python after the non-blank filter the highlights endpoint applies, since "\r\n" only adds a blank piece. This equivalence is argued, not proved.
- `neuro_dashboard.py` is not part of this model. It is UI rendering, HTTP calls and document parsing.
- Environment.AutoAdjustClearsExceeded: holds only for thresholds of at least 10. Below 10, the floor of 10 in `auto_adjust` can leave a reading above its threshold, as `Environment.AutoAdjustFloorCanExceed` shows.
