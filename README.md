# Bloom's taxonomy question-paper analysis, modelled in Dafny

The analyser reads the text of an exam paper and cuts it into questions. For
each question it finds marks written as `[5]`, `(5)` or `5 marks`. It then
rates every question against Bloom's taxonomy. Six cognitive levels
(Remember, Understand, Apply, Analyze, Evaluate, Create) each have a keyword
vocabulary. A question scores, for each level, the number of whole-word,
case-insensitive occurrences of that level's keywords. The level with the
highest score is the question's dominant level. The result gives that
level's share of all matches, its ideal share, the deviation between the
two, and a suggestion that names the level's first three keywords. Over the
whole paper, the share of questions per dominant level is computed as well.

The project models the core of `bloom_analysis.py`:

- `text.dfy` (module `Text`): the pieces of Python's `str` the code relies
  on, for ASCII:
  - `isspace`, `strip` and `split('\n')`;
  - `", ".join`;
  - `int(...)` on a digit string, and `str(n)` in the f-string `f"Q{n}"`.
- `taxonomy.dfy` (module `Taxonomy`): the six levels in the order of the
  vocabulary, the keyword lists of `taxonomy_keywords` and the constant
  `default_ideal_distribution`.
- `segmenter.dfy` (module `Segmenter`): `extract_questions_and_marks`.
  - `MainSearch` is a hand-written matcher for the main pattern. It follows
    the order in which Python's backtracking engine tries the alternatives,
    so it reports the same capture group.
  - `IsSub` is the sub-question pattern.
  - `Segment` is the record list as a function of the lines.
  - `ExtractQuestionsAndMarks` is the imperative loop. It is proved to
    compute `Segment`.
- `scorer.dfy` (module `Scorer`): the scoring loops of
  `analyze_cognitive_levels`.
  - `FindAllFrom` is `re.findall(rf'\b{keyword}\b', text, re.IGNORECASE)`:
    leftmost, non-overlapping, whole-word, ignoring case.
  - `Scores` is the finished score vector.
  - `ScoreLevels` (outer loop) and `AddKeywordCounts` (inner loop) are the
    two nested loops. They are proved to build exactly `Scores`.
- `analyzer.dfy` (module `Analyzer`): the tail of `analyze_cognitive_levels`.
  - `Dominant` is `max(keyword_counts, key=keyword_counts.get)`.
  - `Percent` is the actual percentage, followed by the deviation and the
    suggestion message.
  - `Resolve` is the result dictionary as a function of the score vector.
  - `AnalyzeCognitiveLevels` is the whole function as a method, proved equal
    to `Resolve(Scores(text))`.
- `aggregate.dfy` (module `Aggregate`): the paper-wide
  `value_counts(normalize=True) * 100` over the dominant levels.
- `wrappers.dfy`: an `Option` type.

Where the code and the design description differ, the model follows the code:

- Sub-questions are separate, consecutively numbered records with no marks.
  They are not nested under a main question.
- The ideal distribution is the constant of line 20. It is not a
  configuration parameter.
- The dominant level is the first maximal level in vocabulary order. This
  is what `max` over a dict does with insertion order. It agrees with the
  canonical tie-break.
- The suggestion is the one fixed message of line 104. There are no
  status-dependent templates.
- A paper without questions has no "Dominant Cognitive Level" column, so the
  aggregation at line 160 fails instead of returning zeros. It is modelled
  as `None`.
- The label words are not anchored. Any `q` or `Q` in the line can start
  a match, since the one-letter label `q` is one of the alternatives. Only
  the numbered label `1.` or `1)` must open the line. The design says a
  question line begins with a marker.
- The mark is the first one the regex search reaches, not the first by
  bracket, then parenthesis, then "marks". `Q1 5 marks [3]` gives 5, and
  `Question 12 marks` gives 2.
- "Marks" may be `int(marks)` of a digit string such as `0` or `007`. The
  code does not demand a positive mark.

## Model

| member | source | states |
|---|---|---|
| Text.Strip | bloom_analysis.py:62 | the stripped line is no longer than the line, starts and ends with a non-space, and is empty exactly when the line is all spaces |
| Text.StripRemovesOuterSpaces | bloom_analysis.py:62 | the stripped line is the slice `s[i..j]` of the line where everything before `i` and from `j` on is space and, unless the result is empty, `s[i]` and `s[j-1]` are not |
| Text.StripIdempotent | bloom_analysis.py:62 | stripping a stripped line changes nothing |
| Text.SplitOn | bloom_analysis.py:60 | `split` returns at least one part and no part holds the separator |
| Text.SplitLines | bloom_analysis.py:60 | `text.split('\n')` returns at least one line and no line holds a line feed |
| Text.SplitChars | bloom_analysis.py:60 | every character of a line comes from the text |
| Text.JoinSplit | bloom_analysis.py:60 | joining the lines with `'\n'` gives the text back |
| Text.JoinConsFirst | bloom_analysis.py:97 | joining parts whose first part gained a leading character gains that character |
| Text.SplitPrefix | bloom_analysis.py:97 | splitting text behind a separator-free piece prepends the piece to the first part |
| Text.SplitJoin | bloom_analysis.py:97 | splitting a join of separator-free parts gives the parts back |
| Text.LowerEqMatches | bloom_analysis.py:48 | for a lower-case literal, comparing the lower-cased text is the same as case-insensitive matching |
| Text.SpacesEnd | bloom_analysis.py:62 | the leading run of spaces: all spaces before its end, none at its end |
| Text.SpacesStart | bloom_analysis.py:62 | the trailing run of spaces: all spaces after its start, none just before it |
| Text.DigitChar | bloom_analysis.py:69 | the numeral of a digit is a digit with that value |
| Text.Decimal | bloom_analysis.py:69 | `str(n)` is a non-empty digit string with no leading zero unless it is `"0"` |
| Text.DecimalRoundTrip | bloom_analysis.py:69-70 | `int(str(n)) == n` |
| Text.DecimalInjective | bloom_analysis.py:69 | distinct numbers have distinct numerals |
| Taxonomy.Index | bloom_analysis.py:10-17 | the position of a level in the vocabulary's key order holds that level |
| Taxonomy.LevelsListed | bloom_analysis.py:10-17 | the level at position i has index i, so no level is listed twice |
| Taxonomy.LevelsComplete | bloom_analysis.py:10-17 | every level is a key of the vocabulary |
| Taxonomy.Keywords | bloom_analysis.py:10-17 | every level lists at least three keywords |
| Taxonomy.RememberKeywords | bloom_analysis.py:11 | the Remember list has at least three keywords |
| Taxonomy.UnderstandKeywords | bloom_analysis.py:12 | the Understand list has at least three keywords |
| Taxonomy.ApplyKeywords | bloom_analysis.py:13 | the Apply list has at least three keywords |
| Taxonomy.AnalyzeKeywords | bloom_analysis.py:14 | the Analyze list has at least three keywords |
| Taxonomy.EvaluateKeywords | bloom_analysis.py:15 | the Evaluate list has at least three keywords |
| Taxonomy.CreateKeywords | bloom_analysis.py:16 | the Create list has at least three keywords |
| Taxonomy.KeywordsFormed | bloom_analysis.py:10-17 | every keyword of every level is non-empty and holds no comma |
| Taxonomy.RememberFormed | bloom_analysis.py:11 | the Remember keywords are non-empty and comma-free |
| Taxonomy.UnderstandFormed | bloom_analysis.py:12 | the Understand keywords are non-empty and comma-free |
| Taxonomy.ApplyFormed | bloom_analysis.py:13 | the Apply keywords are non-empty and comma-free |
| Taxonomy.AnalyzeFormed | bloom_analysis.py:14 | the Analyze keywords are non-empty and comma-free |
| Taxonomy.EvaluateFormed | bloom_analysis.py:15 | the Evaluate keywords are non-empty and comma-free |
| Taxonomy.CreateFormed | bloom_analysis.py:16 | the Create keywords are non-empty and comma-free |
| Taxonomy.IdealPercent | bloom_analysis.py:20 | every level's ideal share lies between 10 and 20 percent |
| Taxonomy.IdealDistributionSumsTo100 | bloom_analysis.py:20 | the six ideal percentages add up to 100 |
| Segmenter.RunEnd | bloom_analysis.py:48-50 | a greedy character-class run ends inside the line |
| Segmenter.RunEndSpec | bloom_analysis.py:48-50 | the run is the longest: every character before its end is in the class, the one at its end is not |
| Segmenter.BracketedAt | bloom_analysis.py:50 | `\[(\d+)\]` and `\((\d+)\)` capture a digit string |
| Segmenter.MarksWordAt | bloom_analysis.py:50 | `(\d+)\s*marks?` captures a digit string |
| Segmenter.MarkAt | bloom_analysis.py:50 | the mark group captures a digit string |
| Segmenter.MarkAtStart | bloom_analysis.py:50 | a mark group starts with `[`, `(` or a digit |
| Segmenter.MarkAlternativesExclusive | bloom_analysis.py:50 | no two of the bracket, parenthesis and "marks" alternatives match at one position |
| Segmenter.SeparatorsEnd | bloom_analysis.py:48-49 | the greedy separator, digit and separator runs after a label stay inside the line |
| Segmenter.ScanUp | bloom_analysis.py:50 | the lazy `.*?` scan captures a digit string |
| Segmenter.ScanDown | bloom_analysis.py:48-50 | backtracking into the greedy runs captures a digit string |
| Segmenter.RestAt | bloom_analysis.py:48-50 | everything after the label captures a digit string |
| Segmenter.NumberLabelEnd | bloom_analysis.py:48 | `^[0-9]+[\.\)]` ends after at least one digit and its `.` or `)` |
| Segmenter.LabelEnd | bloom_analysis.py:48 | a label word starts with `q`/`Q`; the numbered label matches only at the start of the line |
| Segmenter.Attempt | bloom_analysis.py:48-50 | one label alternative followed by the rest captures a digit string |
| Segmenter.SearchFrom | bloom_analysis.py:65 | the search from a start position captures a digit string |
| Segmenter.MainSearch | bloom_analysis.py:65-67 | `re.search(pattern_main, line)` with its one participating group captures a digit string |
| Segmenter.ScanUpSound | bloom_analysis.py:50 | what the lazy scan reports is the mark group at the first position at or after its start where one matches |
| Segmenter.ScanUpComplete | bloom_analysis.py:50 | on a line, the lazy scan finds any later mark group |
| Segmenter.ScanDownSound | bloom_analysis.py:48-50 | what backtracking reports is the mark group at a position inside the runs |
| Segmenter.ScanDownComplete | bloom_analysis.py:48-50 | backtracking finds any mark group inside the runs |
| Segmenter.RestAtSound | bloom_analysis.py:48-50 | the captured group is that of a mark group at or after the end of the label |
| Segmenter.RestAtComplete | bloom_analysis.py:48-50 | on a line, the rest matches whenever a mark group follows the label |
| Segmenter.SearchFromSound | bloom_analysis.py:65 | a successful search names its start, its label alternative and the mark group whose digits it captured |
| Segmenter.SearchFromComplete | bloom_analysis.py:65 | the search succeeds whenever some later attempt's label is followed by a mark group |
| Segmenter.MainSearchSound | bloom_analysis.py:47-65 | a match captures the digits of a mark group preceded by a `q`/`Q`, or by a leading question number |
| Segmenter.LetterLabel | bloom_analysis.py:48 | the label `Q` matches at every `q` or `Q`, case ignored |
| Segmenter.MainSearchComplete | bloom_analysis.py:47-65 | every such mark group makes the main pattern match |
| Segmenter.MainSearchIff | bloom_analysis.py:47-65 | on a line, the main pattern matches exactly when a mark group is reachable from a label |
| Segmenter.SubOnStrippedLine | bloom_analysis.py:54-76 | a stripped line is a sub-question exactly when it opens with a letter and `)` |
| Segmenter.MarkInQuestionNumber | bloom_analysis.py:50 | in `Q15 marks`, `(\d+)\s*marks?` matches at the `5` |
| Segmenter.NoMarkAfterQuestionNumber | bloom_analysis.py:50 | in `Q15 marks`, no mark group starts from the space on |
| Segmenter.MarksAfterQuestionNumber | bloom_analysis.py:48-67 | `Q15 marks` yields marks `5`: the greedy `\d*` gives back one digit |
| Segmenter.QuestionNumberInjective | bloom_analysis.py:69 | distinct counters give distinct identifiers |
| Segmenter.Classify | bloom_analysis.py:65-82 | main pattern first, with `int` of its group as marks; sub-question only when the main pattern fails |
| Segmenter.Number | bloom_analysis.py:56-83 | the i-th record is numbered `Q{i+1}`, and there are no more records than lines |
| Segmenter.NumberSnoc | bloom_analysis.py:61-83 | one more line appends its record, numbered after all earlier ones |
| Segmenter.HitLines | bloom_analysis.py:61-82 | the lines that make a record, each listed once, in increasing order |
| Segmenter.NumberAtHits | bloom_analysis.py:56-83 | the i-th record is `Q{i+1}` with the marks and stripped text of the (i+1)-th line that makes a record |
| Segmenter.SegmentSelectsQuestionLines | bloom_analysis.py:45-84 | the records are exactly the question lines in line order, numbered `Q1..Qn`, with their stripped text and their marks |
| Segmenter.RecordMarks | bloom_analysis.py:65-82 | a main question carries `int` of the captured group; a sub-question has no marks |
| Segmenter.SegmentNumbersDistinct | bloom_analysis.py:69-82 | no two records share an identifier |
| Segmenter.EmptyLineIsNoHit | bloom_analysis.py:65-76 | an empty line matches neither pattern |
| Segmenter.NoHitsNoRecords | bloom_analysis.py:61-84 | lines that match neither pattern add no record |
| Segmenter.BlankLine | bloom_analysis.py:60-62 | every line of a blank text strips to the empty line |
| Segmenter.BlankTextHasNoQuestions | bloom_analysis.py:45-84 | a blank or empty text gives the empty list |
| Segmenter.ExtractLine | bloom_analysis.py:62-82 | the loop body appends the record of the stripped line at the current counter |
| Segmenter.SegmentStep | bloom_analysis.py:61-83 | after one more line, the list is the list so far followed by that line's record |
| Segmenter.ExtractQuestionsAndMarks | bloom_analysis.py:45-84 | the loop returns `Segment` of the lines, numbered `Q1..Qn` |
| Scorer.FindAllSound | bloom_analysis.py:91 | every reported position is a whole-word match, and the matches are leftmost first and do not overlap |
| Scorer.FindAllComplete | bloom_analysis.py:91 | every whole-word match is reported unless it overlaps an earlier reported one |
| Scorer.LowerWordChar | bloom_analysis.py:91 | lower-casing keeps the word class and is idempotent |
| Scorer.WholeWordLower | bloom_analysis.py:91 | a whole-word match does not depend on the case of the text |
| Scorer.FindAllSame | bloom_analysis.py:91 | texts with the same whole-word matches give the same report |
| Scorer.OccurrencesIgnoreCase | bloom_analysis.py:91 | lower-casing the text changes no count |
| Scorer.KeywordsCountIncludes | bloom_analysis.py:90-91 | each keyword's count is part of its level's sum |
| Scorer.KeywordsCountZero | bloom_analysis.py:90-91 | the sum is zero exactly when no keyword occurs |
| Scorer.KeywordCountsTowardLevel | bloom_analysis.py:89-91 | a keyword counts toward every level that lists it, shared keywords included |
| Scorer.LevelScoreZero | bloom_analysis.py:89-91 | a level scores zero exactly when none of its keywords occurs |
| Scorer.Scores | bloom_analysis.py:88-91 | every level has an entry |
| Scorer.NoTextCountsZero | bloom_analysis.py:91 | no keyword occurs in the empty text |
| Scorer.NoTextScoresZero | bloom_analysis.py:88-91 | the empty text scores zero on every level |
| Scorer.FilledStep | bloom_analysis.py:89-91 | scoring the next level sets its entry to its score and leaves the rest |
| Scorer.FilledAll | bloom_analysis.py:88-91 | once every level is scored, the dictionary is the score vector |
| Scorer.AddKeywordCounts | bloom_analysis.py:90-91 | the inner loop adds the level's keyword sum to its entry; no other entry and no key changes |
| Scorer.ScoreLevels | bloom_analysis.py:88-91 | the loops build exactly the score vector |
| Analyzer.MaxFromFirstMaximal | bloom_analysis.py:93 | `max` keeps the first maximum seen so far |
| Analyzer.DominantIsFirstMaximal | bloom_analysis.py:93 | a level is the dominant one exactly when it has the greatest count and no earlier level has as great a count |
| Analyzer.AllZeroIsRemember | bloom_analysis.py:93 | with no matches the dominant level is Remember |
| Analyzer.SumFromBounds | bloom_analysis.py:94 | each count from a position on is part of the sum from there |
| Analyzer.TotalBounds | bloom_analysis.py:94 | every count is at most the total, which is zero exactly when every count is |
| Analyzer.SumFromIncrement | bloom_analysis.py:94 | raising one count by one raises the total by one |
| Analyzer.DominantShare | bloom_analysis.py:93-94 | the total is at most six times the dominant count |
| Analyzer.PercentTimesTotal | bloom_analysis.py:94 | for a positive total, the percentage times the total is 100 times the count |
| Analyzer.PercentageBounds | bloom_analysis.py:94 | a percentage of a part lies in [0, 100] |
| Analyzer.PercentageSixth | bloom_analysis.py:94 | a part of at least a sixth is at least 100/6 percent |
| Analyzer.PercentSpec | bloom_analysis.py:94 | the percentage is 0 for a zero total, otherwise `100 * c / t` |
| Analyzer.PercentRange | bloom_analysis.py:94 | a percentage of a part is in [0, 100], positive for a non-empty part, at least 100/6 for a sixth |
| Analyzer.ActualPercentRange | bloom_analysis.py:94 | the actual share is in [0, 100], at least 100/6 when anything matched, and 0 when nothing did |
| Analyzer.DeviationBounds | bloom_analysis.py:95 | the deviation lies between minus the ideal and 100 minus the ideal; it is -10 when nothing matched |
| Analyzer.JoinThree | bloom_analysis.py:97 | joining three parts with `", "` is joining with `,` after a space goes in front of the later parts |
| Analyzer.SuggestionForNamesKeywords | bloom_analysis.py:97-104 | the message is prefix, list and suffix, and splitting the list at commas gives the three keywords back |
| Analyzer.SuggestionNamesKeywords | bloom_analysis.py:97-104 | the suggestion of a level names that level's first three keywords |
| Analyzer.SuggestionForInjective | bloom_analysis.py:97-104 | equal messages come from equal first three keywords |
| Analyzer.SuggestionDeterminesKeywords | bloom_analysis.py:97-104 | two levels share a suggestion only if they share their first three keywords |
| Analyzer.Resolve | bloom_analysis.py:93-105 | the result: the first maximal level, its ideal, its actual % in [0, 100] as the count's share of the total, actual minus ideal, and its suggestion |
| Analyzer.NoMatchesAnalysis | bloom_analysis.py:93-105 | with no matches: Remember, ideal 10, actual 0, deviation -10, the Remember suggestion |
| Analyzer.EmptyTextAnalysis | bloom_analysis.py:87-105 | the empty question text gets that same result |
| Analyzer.AnalyzeCognitiveLevels | bloom_analysis.py:87-105 | the function returns `Resolve` of the score vector of its text |
| Aggregate.CountOfPresent | bloom_analysis.py:160 | a level has questions exactly when it occurs, and at most as many as there are questions |
| Aggregate.Tally | bloom_analysis.py:160 | every level has a count |
| Aggregate.TallyLast | bloom_analysis.py:160 | one more question adds one to its own level only |
| Aggregate.TallyTotal | bloom_analysis.py:160 | the counts add up to the number of questions |
| Aggregate.SumFromZero | bloom_analysis.py:160 | all-zero counts sum to zero |
| Aggregate.ShareOfQuestions | bloom_analysis.py:160 | no result for no questions; otherwise a share for exactly the levels that occur |
| Aggregate.PercentAdd | bloom_analysis.py:160 | percentages of one whole add like their parts |
| Aggregate.PercentWhole | bloom_analysis.py:160 | the whole is 100 percent of itself |
| Aggregate.ShareOfLevel | bloom_analysis.py:160 | each occurring level's share is its questions' percentage, positive and at most 100 |
| Aggregate.ShareSumFrom | bloom_analysis.py:160 | the shares from a position on add up to the percentage of the questions from there on |
| Aggregate.ShareSumStep | bloom_analysis.py:160 | adding one level's share to the later ones |
| Aggregate.ShareAt | bloom_analysis.py:160 | a level's share, zero when absent, is its percentage of the questions |
| Aggregate.SharesSumTo100 | bloom_analysis.py:160 | the shares of a paper with questions add up to 100 |

## Left out

- Reading the uploaded file (PDF, plain text, Word) at lines 23-42 is I/O. The model starts from the document text.
- The CSV export (lines 108-111) and the Streamlit page, HTML table, status-bar colours and charts (lines 113-186) are presentation. Lines 127-143 apply `analyze_cognitive_levels` to the text of each record `extract_questions_and_marks` returns, and line 160 tallies the resulting dominant levels; that composition (`Segment`, then `Resolve(Scores(text))` per record, then `ShareOfQuestions` over the dominant levels) is not stated as one member here: each stage is modelled and proved on its own, and the glue is left out.
- `round(…, 2)` at lines 102-103 is not modelled. Percentages and the deviation are exact reals, not floating point.
- The regular expressions are matched by hand-written functions for these three patterns only. There is no general regex engine.
- Character classes, `\b`, `\s`, `strip` and `IGNORECASE` are modelled for ASCII. Non-ASCII letters, digits, spaces and case folding are not modelled.
- Scorer.Occurrences: an empty keyword counts zero. Python would count every word boundary. No keyword of the vocabulary is empty, so this case never arises.
- Segmenter.Classify: Python's `int` refuses a digit string of more than 4300 digits by default and raises `ValueError`, which aborts the whole extraction. The model has no such limit and gives the line its mark; `RecordMarks` and `ExtractQuestionsAndMarks` inherit this.
- Aggregate.ShareOfQuestions: pandas returns the shares as a Series ordered by falling frequency. The model returns them as a map, with no order.
- The ideal pie chart and the comparison bar chart (lines 161-182) only display the constant ideal distribution and the shares.
