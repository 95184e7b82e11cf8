/**
 * The level scorer of `analyze_cognitive_levels`: for every level of the
 * vocabulary, the number of whole-word, case-insensitive occurrences of each of
 * its keywords, as `len(re.findall(rf'\b{keyword}\b', text, re.IGNORECASE))`
 * counts them, summed over the level's keywords.
 */
module Scorer {
  import opened Text
  import opened Taxonomy

  // ---------------------------------------------------------------------------
  // re.findall(rf'\b{keyword}\b', text, re.IGNORECASE)

  /** The word class of the character before or at a position, if any. */
  predicate WordCharAt(s: string, i: int) {
    0 <= i < |s| && IsWordChar(s[i])
  }

  /** `\b` at position `i`: a word character on exactly one side. */
  predicate BoundaryAt(s: string, i: nat) {
    WordCharAt(s, i - 1) != WordCharAt(s, i)
  }

  /** `\b{kw}\b` matches the text starting at `i`. */
  predicate WholeWordAt(s: string, kw: string, i: nat) {
    MatchesAt(s, i, kw) && BoundaryAt(s, i) && BoundaryAt(s, i + |kw|)
  }

  /** The start positions of the matches `re.findall` reports when it scans
      from `p`: leftmost first, and after a match the scan resumes where it
      ended, so matches never overlap. */
  function FindAllFrom(s: string, kw: string, p: nat): seq<nat>
    requires |kw| > 0
    decreases |s| - p
  {
    if p + |kw| > |s| then []
    else if WholeWordAt(s, kw, p) then [p] + FindAllFrom(s, kw, p + |kw|)
    else FindAllFrom(s, kw, p + 1)
  }

  /** Every position of `ms` is a whole-word occurrence at or after `p`. */
  predicate AllWholeWords(s: string, kw: string, p: nat, ms: seq<nat>) {
    forall i :: 0 <= i < |ms| ==> p <= ms[i] && WholeWordAt(s, kw, ms[i])
  }

  /** The occurrences at the positions `ms` are leftmost first and do not overlap. */
  predicate Disjoint(kw: string, ms: seq<nat>) {
    forall i, j :: 0 <= i < j < |ms| ==> ms[i] + |kw| <= ms[j]
  }

  /** Every reported position is a whole-word occurrence at or after `p`, and
      the reported occurrences do not overlap, leftmost first. */
  lemma {:induction false} FindAllSound(s: string, kw: string, p: nat)
    requires |kw| > 0
    ensures AllWholeWords(s, kw, p, FindAllFrom(s, kw, p))
    ensures Disjoint(kw, FindAllFrom(s, kw, p))
    decreases |s| - p
  {
    if p + |kw| <= |s| {
      var ms := FindAllFrom(s, kw, p);
      if WholeWordAt(s, kw, p) {
        var rest := FindAllFrom(s, kw, p + |kw|);
        FindAllSound(s, kw, p + |kw|);
        assert ms == [p] + rest;
        forall i | 0 <= i < |ms|
          ensures p <= ms[i] && WholeWordAt(s, kw, ms[i])
        {
          if i > 0 {
            assert ms[i] == rest[i - 1];
          }
        }
        forall i, j | 0 <= i < j < |ms|
          ensures ms[i] + |kw| <= ms[j]
        {
          assert ms[j] == rest[j - 1];
          if i > 0 {
            assert ms[i] == rest[i - 1];
          }
        }
      } else {
        FindAllSound(s, kw, p + 1);
        assert ms == FindAllFrom(s, kw, p + 1);
      }
    }
  }

  /** Every whole-word occurrence from `p` on is reported, unless it overlaps
      one reported before it. */
  lemma {:induction false} FindAllComplete(s: string, kw: string, p: nat, q: nat)
    requires |kw| > 0 && p <= q && WholeWordAt(s, kw, q)
    ensures var ms := FindAllFrom(s, kw, p);
      q in ms || exists i :: 0 <= i < |ms| && ms[i] < q < ms[i] + |kw|
    decreases |s| - p
  {
    var ms := FindAllFrom(s, kw, p);
    if WholeWordAt(s, kw, p) {
      var rest := FindAllFrom(s, kw, p + |kw|);
      assert ms == [p] + rest;
      if q >= p + |kw| {
        FindAllComplete(s, kw, p + |kw|, q);
        if q !in rest {
          var i :| 0 <= i < |rest| && rest[i] < q < rest[i] + |kw|;
          assert ms[i + 1] == rest[i];
        }
      } else if q > p {
        assert ms[0] < q < ms[0] + |kw|;
      }
    } else if q > p {
      FindAllComplete(s, kw, p + 1, q);
    }
  }

  /** `len(re.findall(rf'\b{kw}\b', s, re.IGNORECASE))` for a keyword; no
      keyword of the vocabulary is empty. */
  function Occurrences(s: string, kw: string): nat {
    if kw == [] then 0 else |FindAllFrom(s, kw, 0)|
  }

  // ---------------------------------------------------------------------------
  // Case does not matter

  function Lower(s: string): (r: string)
    ensures |r| == |s|
    ensures forall i :: 0 <= i < |s| ==> r[i] == ToLower(s[i])
  {
    seq(|s|, i requires 0 <= i < |s| => ToLower(s[i]))
  }

  lemma LowerWordChar(c: char)
    ensures IsWordChar(ToLower(c)) == IsWordChar(c) && ToLower(ToLower(c)) == ToLower(c)
  {
  }

  /** A whole-word match does not depend on the case of the text. */
  lemma WholeWordLower(s: string, kw: string, p: nat)
    ensures WholeWordAt(Lower(s), kw, p) == WholeWordAt(s, kw, p)
  {
    var t := Lower(s);
    forall i | 0 <= i < |s|
      ensures IsWordChar(t[i]) == IsWordChar(s[i]) && ToLower(t[i]) == ToLower(s[i])
    {
      LowerWordChar(s[i]);
    }
  }

  /** Two texts of one length with the same whole-word matches give the same
      report. */
  lemma {:induction false} FindAllSame(s: string, t: string, kw: string, p: nat)
    requires |kw| > 0 && |s| == |t|
    requires forall q :: WholeWordAt(s, kw, q) == WholeWordAt(t, kw, q)
    ensures FindAllFrom(s, kw, p) == FindAllFrom(t, kw, p)
    decreases |s| - p
  {
    if p + |kw| <= |s| {
      if WholeWordAt(s, kw, p) {
        FindAllSame(s, t, kw, p + |kw|);
      } else {
        FindAllSame(s, t, kw, p + 1);
      }
    }
  }

  /** Counting ignores case: lower-casing the text changes no count. */
  lemma OccurrencesIgnoreCase(s: string, kw: string)
    ensures Occurrences(Lower(s), kw) == Occurrences(s, kw)
  {
    if kw != [] {
      forall q
        ensures WholeWordAt(Lower(s), kw, q) == WholeWordAt(s, kw, q)
      {
        WholeWordLower(s, kw, q);
      }
      FindAllSame(Lower(s), s, kw, 0);
    }
  }

  // ---------------------------------------------------------------------------
  // The score of a level

  /** The sum of the counts of the keywords `ks`. */
  function KeywordsCount(s: string, ks: seq<string>): nat
    decreases |ks|
  {
    if ks == [] then 0
    else KeywordsCount(s, ks[..|ks| - 1]) + Occurrences(s, ks[|ks| - 1])
  }

  /** `keyword_counts[level]` once the loops are done. */
  function LevelScore(s: string, l: Level): nat {
    KeywordsCount(s, Keywords(l))
  }

  /** The count of any one keyword of `ks` is part of their sum. */
  lemma {:induction false} KeywordsCountIncludes(s: string, ks: seq<string>, i: nat)
    requires i < |ks|
    ensures Occurrences(s, ks[i]) <= KeywordsCount(s, ks)
    decreases |ks|
  {
    if i < |ks| - 1 {
      KeywordsCountIncludes(s, ks[..|ks| - 1], i);
    }
  }

  /** A sum of counts is zero exactly when every count is. */
  lemma {:induction false} KeywordsCountZero(s: string, ks: seq<string>)
    ensures KeywordsCount(s, ks) == 0 <==> forall k :: 0 <= k < |ks| ==> Occurrences(s, ks[k]) == 0
    decreases |ks|
  {
    if ks != [] {
      var init := ks[..|ks| - 1];
      KeywordsCountZero(s, init);
      assert forall k :: 0 <= k < |init| ==> init[k] == ks[k];
    }
  }

  /** A keyword counts toward every level that lists it, so a keyword shared by
      two levels adds its occurrences to both. */
  lemma KeywordCountsTowardLevel(s: string, l: Level, kw: string)
    requires kw in Keywords(l)
    ensures Occurrences(s, kw) <= LevelScore(s, l)
  {
    var i :| 0 <= i < |Keywords(l)| && Keywords(l)[i] == kw;
    KeywordsCountIncludes(s, Keywords(l), i);
  }

  /** A level scores zero exactly when none of its keywords occurs. */
  lemma LevelScoreZero(s: string, l: Level)
    ensures LevelScore(s, l) == 0 <==> forall kw :: kw in Keywords(l) ==> Occurrences(s, kw) == 0
  {
    KeywordsCountZero(s, Keywords(l));
  }

  // ---------------------------------------------------------------------------
  // The score vector

  /** Every level has an entry. */
  predicate Populated(counts: map<Level, nat>) {
    forall l: Level :: l in counts
  }

  /** The score vector: one entry per level, holding its score. */
  function Scores(s: string): (counts: map<Level, nat>)
    ensures Populated(counts)
  {
    LevelsComplete();
    map l | l in Levels :: LevelScore(s, l)
  }

  /** Empty text matches no keyword.
      The empty text is a parameter pinned by `requires s == []` rather than
      the literal `""` so that the verifier does not unfold the keyword lists
      on a literal text. */
  lemma {:induction false} NoTextCountsZero(s: string, ks: seq<string>)
    requires s == []
    ensures KeywordsCount(s, ks) == 0
    decreases |ks|
  {
    if ks != [] {
      NoTextCountsZero(s, ks[..|ks| - 1]);
    }
  }

  /** Empty text scores zero at every level.
      The empty text is a parameter pinned by `requires s == []` rather than
      the literal `""` so that the verifier does not unfold the keyword lists
      on a literal text. */
  lemma NoTextScoresZero(s: string)
    requires s == []
    ensures forall l :: Scores(s)[l] == 0
  {
    forall l
      ensures Scores(s)[l] == 0
    {
      NoTextCountsZero(s, Keywords(l));
    }
  }

  /** The dictionary once the outer loop has scored the first `n` levels of
      the vocabulary: they hold their entries of `scores`, the others zero. */
  predicate Filled(counts: map<Level, nat>, scores: map<Level, nat>, n: nat) {
    Populated(counts) && Populated(scores)
    && forall l :: counts[l] == if Index(l) < n then scores[l] else 0
  }

  /** Scoring level `n` adds its score to its zero entry. */
  lemma FilledStep(before: map<Level, nat>, after: map<Level, nat>, scores: map<Level, nat>, n: nat, level: Level, v: nat)
    requires n < |Levels| && level == Levels[n] && Filled(before, scores, n)
    requires v == scores[level] && after.Keys == before.Keys && after[level] == before[level] + v
    requires forall l :: l in before && l != level ==> after[l] == before[l]
    ensures Filled(after, scores, n + 1)
  {
    LevelsListed(n);
    forall l
      ensures after[l] == if Index(l) < n + 1 then scores[l] else 0
    {
      if l != level {
        assert Index(l) != n;
      }
    }
  }

  /** Once every level is scored the dictionary is the score vector. */
  lemma FilledAll(counts: map<Level, nat>, scores: map<Level, nat>)
    requires Filled(counts, scores, |Levels|)
    ensures counts == scores
  {
    assert counts.Keys == scores.Keys;
  }

  /** The inner loop of the scoring: every keyword of `keywords` adds its
      count to the entry of `level`, and no other entry changes. */
  method AddKeywordCounts(text: string, level: Level, keywords: seq<string>, counts: map<Level, nat>)
    returns (keywordCounts: map<Level, nat>)
    requires level in counts
    ensures keywordCounts.Keys == counts.Keys
    ensures keywordCounts[level] == counts[level] + KeywordsCount(text, keywords)
    ensures forall l :: l in counts && l != level ==> keywordCounts[l] == counts[l]
  {
    keywordCounts := counts;
    for m := 0 to |keywords|
      invariant keywordCounts.Keys == counts.Keys
      invariant keywordCounts[level] == counts[level] + KeywordsCount(text, keywords[..m])
      invariant forall l :: l in counts && l != level ==> keywordCounts[l] == counts[l]
    {
      assert keywords[..m + 1][..m] == keywords[..m];
      keywordCounts := keywordCounts[level := keywordCounts[level] + Occurrences(text, keywords[m])];
    }
    assert keywords[..|keywords|] == keywords;
  }

  /** The scoring loops of `analyze_cognitive_levels`: the dictionary starts
      with a zero for every level and each keyword adds its count to its level. */
  method ScoreLevels(text: string) returns (keywordCounts: map<Level, nat>)
    ensures keywordCounts == Scores(text)
  {
    ghost var scores := Scores(text);
    LevelsComplete();
    keywordCounts := map l | l in Levels :: 0;
    for n := 0 to |Levels|
      invariant Filled(keywordCounts, scores, n)
    {
      var level := Levels[n];
      ghost var before := keywordCounts;
      keywordCounts := AddKeywordCounts(text, level, Keywords(level), keywordCounts);
      FilledStep(before, keywordCounts, scores, n, level, KeywordsCount(text, Keywords(level)));
    }
    FilledAll(keywordCounts, scores);
  }
}
