/**
 * The question segmenter of `extract_questions_and_marks`: the document text is
 * split into lines, each line is stripped and tested first against the
 * "main question with marks" pattern and then against the sub-question
 * pattern, and every hit becomes a record numbered Q1, Q2, ...
 *
 * The two regular expressions are matched by hand. The main pattern is
 *
 *   (?i)(?:Question|Q|Que|Qn|Qu|question|Que no|Q no|^[0-9]+[\.\)])
 *       [\s)*.:,-]*\d*[\s)*.-]*.*?(?:\[(\d+)\]|\((\d+)\)|(\d+)\s*marks?)
 *
 * used with `re.search`. Its functions below follow the order in which a
 * backtracking engine tries the choices, so that the group it reports is the
 * one the model reports: start positions from left to right; at each start the
 * label alternatives in the order written (only the numbered label is anchored
 * to the start of the line); for a label that ends at `e`, the possible starts
 * `j` of the mark group, first upwards from the end of the greedy separator run
 * (the lazy `.*?`, which cannot cross a line feed), then downwards back to `e`
 * (the greedy runs giving characters back).
 */
module Segmenter {
  import opened Wrappers
  import opened Text

  // ---------------------------------------------------------------------------
  // Character runs

  /** The character classes that the main pattern repeats. */
  datatype CharClass =
    | LeadSeparator   // [\s)*.:,-]
    | Digit           // \d
    | TrailSeparator  // [\s)*.-]
    | Space           // \s

  predicate InClass(c: char, k: CharClass) {
    match k
    case LeadSeparator => IsSpace(c) || c == ')' || c == '*' || c == '.' || c == ':' || c == ',' || c == '-'
    case Digit => IsDigit(c)
    case TrailSeparator => IsSpace(c) || c == ')' || c == '*' || c == '.' || c == '-'
    case Space => IsSpace(c)
  }

  /** Where a greedy `[k]*` that starts at `i` stops. */
  function RunEnd(s: string, i: nat, k: CharClass): (e: nat)
    requires i <= |s|
    ensures i <= e <= |s|
    decreases |s| - i
  {
    if i < |s| && InClass(s[i], k) then RunEnd(s, i + 1, k) else i
  }

  /** The run is the longest one: every character before its end is in the
      class, the one at its end is not. */
  lemma {:induction false} RunEndSpec(s: string, i: nat, k: CharClass)
    requires i <= |s|
    ensures forall m :: i <= m < RunEnd(s, i, k) ==> InClass(s[m], k)
    ensures RunEnd(s, i, k) < |s| ==> !InClass(s[RunEnd(s, i, k)], k)
    decreases |s| - i
  {
    if i < |s| && InClass(s[i], k) {
      RunEndSpec(s, i + 1, k);
    }
  }

  // ---------------------------------------------------------------------------
  // The mark group

  /** `\[(\d+)\]` (or `\((\d+)\)`) at `j`: the digits between the brackets. */
  function BracketedAt(s: string, j: nat, open: char, close: char): (g: Option<string>)
    requires j <= |s|
    ensures g.Some? ==> IsDigitString(g.value)
  {
    if j < |s| && s[j] == open then
      var k := RunEnd(s, j + 1, Digit);
      RunEndSpec(s, j + 1, Digit);
      if j + 1 < k < |s| && s[k] == close then Some(s[j + 1..k]) else None
    else None
  }

  /** `(\d+)\s*marks?` at `j`: the digits, when the word "mark" follows them. */
  function MarksWordAt(s: string, j: nat): (g: Option<string>)
    requires j <= |s|
    ensures g.Some? ==> IsDigitString(g.value)
  {
    var k := RunEnd(s, j, Digit);
    RunEndSpec(s, j, Digit);
    if j < k && LowerEq(s, RunEnd(s, k, Space), "mark") then Some(s[j..k]) else None
  }

  /** The mark group tried at `j`: bracket, then parenthesis, then "marks".
      At most one of the three can match at a given position, since they need
      different first characters (`MarkAlternativesExclusive`); so the captured
      group is the one that did. */
  function MarkAt(s: string, j: nat): (g: Option<string>)
    requires j <= |s|
    ensures g.Some? ==> IsDigitString(g.value)
  {
    match BracketedAt(s, j, '[', ']')
    case Some(d) => Some(d)
    case None =>
      match BracketedAt(s, j, '(', ')')
      case Some(d) => Some(d)
      case None => MarksWordAt(s, j)
  }

  /** No two of the three mark alternatives match at the same position. */
  lemma MarkAlternativesExclusive(s: string, j: nat)
    requires j <= |s|
    ensures !(BracketedAt(s, j, '[', ']').Some? && BracketedAt(s, j, '(', ')').Some?)
    ensures !(BracketedAt(s, j, '[', ']').Some? && MarksWordAt(s, j).Some?)
    ensures !(BracketedAt(s, j, '(', ')').Some? && MarksWordAt(s, j).Some?)
  {
    if MarksWordAt(s, j).Some? {
      RunEndSpec(s, j, Digit);
    }
  }

  /** A mark group starts with a bracket, a parenthesis or a digit. */
  lemma MarkAtStart(s: string, j: nat)
    requires j <= |s|
    ensures MarkAt(s, j).Some? ==> j < |s| && (s[j] == '[' || s[j] == '(' || IsDigit(s[j]))
  {
  }

  // ---------------------------------------------------------------------------
  // Everything after the label

  /** Where the greedy `[\s)*.:,-]*\d*[\s)*.-]*` that starts at `e` stops. */
  function SeparatorsEnd(s: string, e: nat): (b: nat)
    requires e <= |s|
    ensures e <= b <= |s|
  {
    RunEnd(s, RunEnd(s, RunEnd(s, e, LeadSeparator), Digit), TrailSeparator)
  }

  /** The lazy `.*?`: the mark group at `j`, `j + 1`, ... up to a line feed. */
  function ScanUp(s: string, j: nat): (g: Option<string>)
    requires j <= |s|
    ensures g.Some? ==> IsDigitString(g.value)
    decreases |s| - j
  {
    match MarkAt(s, j)
    case Some(d) => Some(d)
    case None => if j < |s| && s[j] != '\n' then ScanUp(s, j + 1) else None
  }

  /** Backtracking into the separator runs: the mark group at `b - 1`, ..., `e`. */
  function ScanDown(s: string, e: nat, b: nat): (g: Option<string>)
    requires e <= b <= |s|
    ensures g.Some? ==> IsDigitString(g.value)
    decreases b
  {
    if b == e then None
    else
      match MarkAt(s, b - 1)
      case Some(d) => Some(d)
      case None => ScanDown(s, e, b - 1)
  }

  /** The rest of the pattern after a label that ends at `e`: the captured digits. */
  function RestAt(s: string, e: nat): (g: Option<string>)
    requires e <= |s|
    ensures g.Some? ==> IsDigitString(g.value)
  {
    var b := SeparatorsEnd(s, e);
    match ScanUp(s, b)
    case Some(d) => Some(d)
    case None => ScanDown(s, e, b)
  }

  // ---------------------------------------------------------------------------
  // The label and the search

  /** The label words in the order the alternation lists them, lower-cased. */
  const LabelWords: seq<string> := ["question", "q", "que", "qn", "qu", "question", "que no", "q no"]

  predicate IsQ(c: char) {
    c == 'q' || c == 'Q'
  }

  /** `^[0-9]+[\.\)]`: where a leading question number ends. */
  function NumberLabelEnd(s: string): (e: Option<nat>)
    ensures e.Some? ==> 2 <= e.value <= |s|
  {
    var k := RunEnd(s, 0, Digit);
    if 0 < k < |s| && (s[k] == '.' || s[k] == ')') then Some(k + 1) else None
  }

  /** The number of label alternatives: the eight words and the leading number. */
  const LabelCount: nat := |LabelWords| + 1

  /** Where label alternative `alt` ends when it matches at `start`. */
  function LabelEnd(s: string, start: nat, alt: nat): (e: Option<nat>)
    requires alt < LabelCount
    ensures e.Some? ==> start < e.value <= |s|
    ensures e.Some? && alt < |LabelWords| ==> start < |s| && IsQ(s[start])
    ensures e.Some? && alt == |LabelWords| ==> start == 0 && e == NumberLabelEnd(s)
  {
    if alt < |LabelWords| then
      var w := LabelWords[alt];
      assert |w| > 0 && w[0] == 'q';
      if LowerEq(s, start, w) then Some(start + |w|) else None
    else if start == 0 then NumberLabelEnd(s)
    else None
  }

  /** Label alternative `alt` at `start` followed by the rest of the pattern. */
  function Attempt(s: string, start: nat, alt: nat): (g: Option<string>)
    requires alt < LabelCount
    ensures g.Some? ==> IsDigitString(g.value)
  {
    match LabelEnd(s, start, alt)
    case Some(e) => RestAt(s, e)
    case None => None
  }

  /** `re.search` from start position `start` and label alternative `alt` on:
      the alternatives at one start in the order written, then the next start.
      The captured digits of the first attempt after which the rest of the
      pattern matches. */
  function SearchFrom(s: string, start: nat, alt: nat): (g: Option<string>)
    requires start <= |s| && alt <= LabelCount
    ensures g.Some? ==> IsDigitString(g.value)
    decreases |s| - start, LabelCount - alt
  {
    if alt == LabelCount then
      if start == |s| then None else SearchFrom(s, start + 1, 0)
    else
      var g := Attempt(s, start, alt);
      if g.Some? then g else SearchFrom(s, start, alt + 1)
  }

  /** `re.search(pattern_main, line)`: `None` when there is no match, otherwise
      the text of the one mark group that took part in the match. */
  function MainSearch(line: string): (g: Option<string>)
    ensures g.Some? ==> IsDigitString(g.value)
  {
    SearchFrom(line, 0, 0)
  }

  // ---------------------------------------------------------------------------
  // What the search finds

  /** The lazy scan reports the group of the first position from `j` on where
      a mark group matches. */
  lemma {:induction false} ScanUpSound(s: string, j: nat) returns (m: nat)
    requires j <= |s| && ScanUp(s, j).Some?
    ensures j <= m <= |s| && MarkAt(s, m) == ScanUp(s, j)
    ensures forall k :: j <= k < m ==> MarkAt(s, k).None?
    decreases |s| - j
  {
    if MarkAt(s, j).Some? {
      m := j;
    } else {
      m := ScanUpSound(s, j + 1);
    }
  }

  /** On a line without line feeds, the lazy scan finds any later mark group. */
  lemma {:induction false} ScanUpComplete(s: string, j: nat, m: nat)
    requires '\n' !in s && j <= m <= |s| && MarkAt(s, m).Some?
    ensures ScanUp(s, j).Some?
    decreases m - j
  {
    if j < m && MarkAt(s, j).None? {
      ScanUpComplete(s, j + 1, m);
    }
  }

  lemma {:induction false} ScanDownSound(s: string, e: nat, b: nat) returns (m: nat)
    requires e <= b <= |s| && ScanDown(s, e, b).Some?
    ensures e <= m < b && MarkAt(s, m) == ScanDown(s, e, b)
    decreases b
  {
    if MarkAt(s, b - 1).Some? {
      m := b - 1;
    } else {
      m := ScanDownSound(s, e, b - 1);
    }
  }

  lemma {:induction false} ScanDownComplete(s: string, e: nat, b: nat, m: nat)
    requires e <= m < b <= |s| && MarkAt(s, m).Some?
    ensures ScanDown(s, e, b).Some?
    decreases b
  {
    if m < b - 1 && MarkAt(s, b - 1).None? {
      ScanDownComplete(s, e, b - 1, m);
    }
  }

  /** After a label ending at `e`, the captured group is that of a mark group
      starting at or after `e`. */
  lemma RestAtSound(s: string, e: nat) returns (m: nat)
    requires e <= |s| && RestAt(s, e).Some?
    ensures e <= m <= |s| && MarkAt(s, m) == RestAt(s, e)
  {
    var b := SeparatorsEnd(s, e);
    if ScanUp(s, b).Some? {
      m := ScanUpSound(s, b);
    } else {
      m := ScanDownSound(s, e, b);
    }
  }

  /** On a line without line feeds, the rest of the pattern matches after a
      label ending at `e` whenever a mark group starts at or after `e`. */
  lemma RestAtComplete(s: string, e: nat, m: nat)
    requires '\n' !in s && e <= m <= |s| && MarkAt(s, m).Some?
    ensures RestAt(s, e).Some?
  {
    var b := SeparatorsEnd(s, e);
    if b <= m {
      ScanUpComplete(s, b, m);
    } else if ScanUp(s, b).None? {
      ScanDownComplete(s, e, b, m);
    }
  }

  /** The attempt that succeeded: start `p`, label alternative `a` ending at
      `e`, mark group at `m`. */
  lemma {:induction false} SearchFromSound(s: string, start: nat, alt: nat) returns (p: nat, a: nat, e: nat, m: nat)
    requires start <= |s| && alt <= LabelCount && SearchFrom(s, start, alt).Some?
    ensures start <= p <= |s| && a < LabelCount && LabelEnd(s, p, a) == Some(e)
    ensures e <= m <= |s| && MarkAt(s, m) == SearchFrom(s, start, alt)
    decreases |s| - start, LabelCount - alt
  {
    if alt == LabelCount {
      p, a, e, m := SearchFromSound(s, start + 1, 0);
    } else if Attempt(s, start, alt).Some? {
      p, a, e := start, alt, LabelEnd(s, start, alt).value;
      m := RestAtSound(s, e);
    } else {
      p, a, e, m := SearchFromSound(s, start, alt + 1);
    }
  }

  /** On a single line, the search succeeds no later than at any attempt
      whose label is followed by a mark group. */
  lemma {:induction false} SearchFromComplete(s: string, start: nat, alt: nat, p: nat, a: nat, m: nat)
    requires '\n' !in s && start <= p <= |s| && alt <= LabelCount && a < LabelCount
    requires start < p || alt <= a
    requires LabelEnd(s, p, a).Some? && LabelEnd(s, p, a).value <= m <= |s| && MarkAt(s, m).Some?
    ensures SearchFrom(s, start, alt).Some?
    decreases |s| - start, LabelCount - alt
  {
    if alt == LabelCount {
      SearchFromComplete(s, start + 1, 0, p, a, m);
    } else if start == p && alt == a {
      RestAtComplete(s, LabelEnd(s, p, a).value, m);
    } else if Attempt(s, start, alt).None? {
      SearchFromComplete(s, start, alt + 1, p, a, m);
    }
  }

  /** A mark group starting at `m` can complete a match: a `q` or `Q` occurs
      before it (the first letter of every label word), or the line opens with
      a question number that ends at or before it. */
  predicate Anchored(s: string, m: nat) {
    (exists p :: 0 <= p < m && p < |s| && IsQ(s[p]))
    || (NumberLabelEnd(s).Some? && NumberLabelEnd(s).value <= m)
  }

  /** Whatever `re.search` captures is the group of a mark group that some
      label can lead to. */
  lemma MainSearchSound(s: string) returns (m: nat)
    requires MainSearch(s).Some?
    ensures m <= |s| && MarkAt(s, m) == MainSearch(s) && Anchored(s, m)
  {
    var p, a, e;
    p, a, e, m := SearchFromSound(s, 0, 0);
    if a < |LabelWords| {
      assert p < m && IsQ(s[p]);
    }
  }

  /** The one-letter label `q` matches at every `q` or `Q`. */
  lemma LetterLabel(s: string, p: nat)
    requires p < |s| && IsQ(s[p])
    ensures LabelEnd(s, p, 1) == Some(p + 1)
  {
    assert LabelWords[1] == "q";
  }

  /** On a single line, a mark group that a label can lead to is found. */
  lemma MainSearchComplete(s: string, m: nat)
    requires '\n' !in s && m <= |s| && MarkAt(s, m).Some? && Anchored(s, m)
    ensures MainSearch(s).Some?
  {
    if p :| 0 <= p < m && p < |s| && IsQ(s[p]) {
      LetterLabel(s, p);
      SearchFromComplete(s, 0, 0, p, 1, m);
    } else {
      SearchFromComplete(s, 0, 0, 0, |LabelWords|, m);
    }
  }

  /** On a single line, the main pattern matches exactly when some mark group
      can be reached from a label: any `q`/`Q` before it, or a leading
      question number. */
  lemma MainSearchIff(s: string)
    requires '\n' !in s
    ensures MainSearch(s).Some? <==> exists m :: 0 <= m <= |s| && MarkAt(s, m).Some? && Anchored(s, m)
  {
    if MainSearch(s).Some? {
      var m := MainSearchSound(s);
    }
    if m :| 0 <= m <= |s| && MarkAt(s, m).Some? && Anchored(s, m) {
      MainSearchComplete(s, m);
    }
  }

  /** `re.match(r"(?i)^[\s]*[a-z]\)", line)`. */
  predicate IsSub(line: string) {
    var k := RunEnd(line, 0, Space);
    k + 1 < |line| && IsLetter(line[k]) && line[k + 1] == ')'
  }

  /** A stripped line (no leading space) is a sub-question exactly when it
      opens with a letter and a closing parenthesis. */
  lemma SubOnStrippedLine(s: string)
    requires s == [] || !IsSpace(s[0])
    ensures IsSub(s) <==> |s| >= 2 && IsLetter(s[0]) && s[1] == ')'
  {
  }

  /** In `Q15 marks`, the mark group matches at the `5`. */
  lemma MarkInQuestionNumber()
    ensures MarkAt("Q15 marks", 2) == Some("5")
  {
    var s := "Q15 marks";
    assert RunEnd(s, 3, Digit) == 3;
    assert RunEnd(s, 4, Space) == 4;
    assert RunEnd(s, 3, Space) == 4;
    assert LowerEq(s, 4, "mark");
    assert s[2..3] == "5";
  }

  /** In `Q15 marks`, no mark group starts at or after the space. */
  lemma NoMarkAfterQuestionNumber()
    ensures ScanUp("Q15 marks", 3) == None
  {
    var s := "Q15 marks";
    forall j | 3 <= j < |s|
      ensures MarkAt(s, j) == None
    {
      MarkAtStart(s, j);
    }
    assert ScanUp(s, 9) == None;
    assert ScanUp(s, 7) == None;
    assert ScanUp(s, 5) == None;
  }

  /** The greedy digit run after the label gives back its last digit when the
      mark group cannot match right after it: in `Q15 marks` the captured
      group is `5`, not `15`. */
  lemma MarksAfterQuestionNumber()
    ensures MainSearch("Q15 marks") == Some("5")
  {
    var s := "Q15 marks";
    assert LabelWords[0] == "question" && ToLower(s[1]) != LabelWords[0][1];
    assert LabelEnd(s, 0, 0) == None;
    LetterLabel(s, 0);
    assert SeparatorsEnd(s, 1) == 4;
    NoMarkAfterQuestionNumber();
    assert ScanUp(s, 4) == None;
    MarkAtStart(s, 3);
    MarkInQuestionNumber();
    assert RestAt(s, 1) == Some("5");
  }

  // ---------------------------------------------------------------------------
  // Records

  /** One entry of the list the segmenter returns. */
  datatype Question = Question(number: string, marks: Option<nat>, text: string)

  /** `f"Q{n}"`. */
  function QuestionNumber(n: nat): (r: string)
    ensures |r| >= 2 && r[0] == 'Q' && r[1..] == Decimal(n)
  {
    "Q" + Decimal(n)
  }

  /** How a stripped line is classified: a main question with its marks, a
      sub-question (never with marks), or neither. */
  datatype Hit = MainHit(marks: Option<nat>) | SubHit | NoHit

  /** The main pattern first, `int(marks) if marks else None` for its group;
      the sub-question pattern only when the main one fails. A main question
      always carries marks, since the group it captured is a digit string. */
  function Classify(line: string): (h: Hit)
    ensures h.MainHit? <==> MainSearch(line).Some?
    ensures h.SubHit? <==> MainSearch(line).None? && IsSub(line)
    ensures h.MainHit? ==> h.marks == Some(DigitsValue(MainSearch(line).value))
  {
    match MainSearch(line)
    case Some(g) => MainHit(if g != "" then Some(DigitsValue(g)) else None)
    case None => if IsSub(line) then SubHit else NoHit
  }

  /** The marks a record of this kind carries. */
  function MarksOf(h: Hit): Option<nat> {
    if h.MainHit? then h.marks else None
  }

  /** A stripped line together with its classification. */
  datatype Tagged = Tagged(text: string, hit: Hit)

  /** A line of the document, stripped, with its classification. */
  function TagLine(line: string): (t: Tagged)
    ensures t.text == Strip(line) && t.hit == Classify(t.text)
  {
    var stripped := Strip(line);
    Tagged(stripped, Classify(stripped))
  }

  /** Every line of the document, stripped, with its classification. */
  function Tag(lines: seq<string>): (t: seq<Tagged>)
    ensures |t| == |lines|
    ensures forall i :: 0 <= i < |t| ==> t[i] == TagLine(lines[i])
  {
    seq(|lines|, i requires 0 <= i < |lines| => TagLine(lines[i]))
  }

  /** What one tagged line adds to the list when the counter stands at `counter`. */
  function Record(t: Tagged, counter: nat): seq<Question> {
    if t.hit == NoHit then [] else [Question(QuestionNumber(counter), MarksOf(t.hit), t.text)]
  }

  /** The record list built line by line, the counter starting at 1 and
      moving on only when a record is added. */
  function Number(t: seq<Tagged>): (qs: seq<Question>)
    ensures |qs| <= |t|
    ensures forall i :: 0 <= i < |qs| ==> qs[i].number == QuestionNumber(i + 1)
    decreases |t|
  {
    if t == [] then []
    else
      var prev := Number(t[..|t| - 1]);
      prev + Record(t[|t| - 1], |prev| + 1)
  }

  lemma TakeOneMore<T>(s: seq<T>, n: nat)
    requires n < |s|
    ensures s[..n + 1] == s[..n] + [s[n]]
  {
  }

  /** Adding one line at the end adds its record, numbered after the others. */
  lemma NumberSnoc(t: seq<Tagged>, x: Tagged)
    ensures Number(t + [x]) == Number(t) + Record(x, |Number(t)| + 1)
  {
    assert (t + [x])[..|t|] == t;
  }

  /** The positions of the lines that produce a record, in line order. */
  function HitLines(t: seq<Tagged>): (ix: seq<nat>)
    ensures forall i :: 0 <= i < |ix| ==> ix[i] < |t| && t[ix[i]].hit != NoHit
    ensures forall i, j :: 0 <= i < j < |ix| ==> ix[i] < ix[j]
    ensures forall k :: 0 <= k < |t| && t[k].hit != NoHit ==> k in ix
    decreases |t|
  {
    if t == [] then []
    else
      var prev := HitLines(t[..|t| - 1]);
      if t[|t| - 1].hit == NoHit then prev else prev + [|t| - 1]
  }

  /** The i-th record is the (i+1)-th line that produces one, numbered i + 1. */
  lemma {:induction false} NumberAtHits(t: seq<Tagged>)
    ensures |Number(t)| == |HitLines(t)|
    ensures forall i :: 0 <= i < |Number(t)| ==>
      Number(t)[i] == Question(QuestionNumber(i + 1), MarksOf(t[HitLines(t)[i]].hit), t[HitLines(t)[i]].text)
    decreases |t|
  {
    if t != [] {
      var prev := t[..|t| - 1];
      var last := t[|t| - 1];
      NumberAtHits(prev);
      var qs, ix := Number(prev), HitLines(prev);
      assert Number(t) == qs + Record(last, |qs| + 1);
      assert HitLines(t) == if last.hit == NoHit then ix else ix + [|t| - 1];
      forall i | 0 <= i < |Number(t)|
        ensures Number(t)[i] == Question(QuestionNumber(i + 1), MarksOf(t[HitLines(t)[i]].hit), t[HitLines(t)[i]].text)
      {
        if i < |qs| {
          assert Number(t)[i] == qs[i] && HitLines(t)[i] == ix[i];
          assert t[ix[i]] == prev[ix[i]];
        } else {
          assert HitLines(t)[i] == |t| - 1;
        }
      }
    }
  }

  /** `extract_questions_and_marks` on the lines of a document. */
  function Segment(lines: seq<string>): seq<Question> {
    Number(Tag(lines))
  }

  /** The records are exactly the lines whose stripped text is a main question
      or a sub-question, in line order: the i-th record is numbered `Q{i+1}`,
      its text is the stripped line and its marks are those of the main hit. */
  lemma SegmentSelectsQuestionLines(lines: seq<string>)
    ensures var qs := Segment(lines); var ix := HitLines(Tag(lines));
      |qs| == |ix|
      && (forall i :: 0 <= i < |ix| ==>
            (ix[i] < |lines|
             && qs[i] == Question(QuestionNumber(i + 1), MarksOf(Classify(Strip(lines[ix[i]]))), Strip(lines[ix[i]]))))
      && (forall i, j :: 0 <= i < j < |ix| ==> ix[i] < ix[j])
      && (forall k :: 0 <= k < |lines| ==> (k in ix <==> Classify(Strip(lines[k])) != NoHit))
  {
    NumberAtHits(Tag(lines));
  }

  /** A record of a main question always carries the integer value of the
      captured mark group; a record of a sub-question never carries marks. */
  lemma RecordMarks(lines: seq<string>, i: nat)
    requires i < |Segment(lines)|
    ensures var q := Segment(lines)[i];
      (MainSearch(q.text).Some? ==> q.marks == Some(DigitsValue(MainSearch(q.text).value)))
      && (MainSearch(q.text).None? ==> IsSub(q.text) && q.marks == None)
  {
    NumberAtHits(Tag(lines));
  }

  /** Distinct numbers give distinct identifiers. */
  lemma QuestionNumberInjective(a: nat, b: nat)
    requires QuestionNumber(a) == QuestionNumber(b)
    ensures a == b
  {
    DecimalInjective(a, b);
  }

  /** No two records share an identifier. */
  lemma SegmentNumbersDistinct(lines: seq<string>, i: nat, j: nat)
    requires i < j < |Segment(lines)|
    ensures Segment(lines)[i].number != Segment(lines)[j].number
  {
    if Segment(lines)[i].number == Segment(lines)[j].number {
      QuestionNumberInjective(i + 1, j + 1);
    }
  }

  /** A blank line is neither a main question nor a sub-question. */
  lemma EmptyLineIsNoHit()
    ensures Classify([]) == NoHit
  {
    if MainSearch([]).Some? {
      var m := MainSearchSound([]);
    }
  }

  /** Lines that produce no record add nothing to the list. */
  lemma {:induction false} NoHitsNoRecords(t: seq<Tagged>)
    requires forall k :: 0 <= k < |t| ==> t[k].hit == NoHit
    ensures Number(t) == []
    decreases |t|
  {
    if t != [] {
      NoHitsNoRecords(t[..|t| - 1]);
    }
  }

  /** Every line of a blank document strips to the empty line. */
  lemma BlankLine(text: string, k: nat)
    requires forall m :: 0 <= m < |text| ==> IsSpace(text[m])
    requires k < |SplitLines(text)|
    ensures Strip(SplitLines(text)[k]) == []
  {
    forall c | c in SplitLines(text)[k]
      ensures IsSpace(c)
    {
      SplitChars(text, '\n', k, c);
    }
  }

  /** A document made of spaces only (the empty one included) has no questions. */
  lemma BlankTextHasNoQuestions(text: string)
    requires forall k :: 0 <= k < |text| ==> IsSpace(text[k])
    ensures Segment(SplitLines(text)) == []
  {
    var t := Tag(SplitLines(text));
    EmptyLineIsNoHit();
    forall k | 0 <= k < |t|
      ensures t[k].hit == NoHit
    {
      BlankLine(text, k);
    }
    NoHitsNoRecords(t);
  }

  /** The body of the loop of `extract_questions_and_marks` for one line: the
      record it appends, if any, when the counter stands at `counter`. */
  method ExtractLine(rawLine: string, counter: nat) returns (added: seq<Question>)
    ensures added == Record(TagLine(rawLine), counter)
  {
    var line := Strip(rawLine);
    var matchMain := MainSearch(line);
    if matchMain.Some? {
      var marks := matchMain.value;
      added := [Question(QuestionNumber(counter), if marks != "" then Some(DigitsValue(marks)) else None, line)];
    } else if IsSub(line) {
      added := [Question(QuestionNumber(counter), None, line)];
    } else {
      added := [];
    }
  }

  /** One more line of the loop: its records come after those of the lines before it. */
  lemma SegmentStep(lines: seq<string>, n: nat, questions: seq<Question>, counter: nat, added: seq<Question>)
    requires n < |lines|
    requires questions == Number(Tag(lines)[..n])
    requires counter == |questions| + 1
    requires added == Record(TagLine(lines[n]), counter)
    ensures questions + added == Number(Tag(lines)[..n + 1])
  {
    var t := Tag(lines);
    TakeOneMore(t, n);
    NumberSnoc(t[..n], t[n]);
  }

  /** `extract_questions_and_marks(text)`. */
  method ExtractQuestionsAndMarks(text: string) returns (questions: seq<Question>)
    ensures questions == Segment(SplitLines(text))
    ensures forall i :: 0 <= i < |questions| ==> questions[i].number == QuestionNumber(i + 1)
  {
    questions := [];
    var questionCounter := 1;
    var lines := SplitLines(text);
    for n := 0 to |lines|
      invariant questions == Number(Tag(lines)[..n])
      invariant questionCounter == |questions| + 1
    {
      var added := ExtractLine(lines[n], questionCounter);
      SegmentStep(lines, n, questions, questionCounter, added);
      questions := questions + added;
      questionCounter := questionCounter + |added|;
    }
    assert Tag(lines)[..|lines|] == Tag(lines);
  }
}
