/**
 * The fixed vocabulary of Bloom's taxonomy: six cognitive levels in their
 * canonical order, each with its trigger keywords, and the ideal share of
 * questions per level.
 */
module Taxonomy {

  datatype Level = Remember | Understand | Apply | Analyze | Evaluate | Create

  /** The order in which the vocabulary lists the levels; it is the order in
      which the score map is filled and in which the dominant level is sought. */
  const Levels: seq<Level> := [Remember, Understand, Apply, Analyze, Evaluate, Create]

  /** The position of a level in the canonical order. */
  function Index(l: Level): (i: nat)
    ensures i < |Levels| && Levels[i] == l
  {
    match l
    case Remember => 0
    case Understand => 1
    case Apply => 2
    case Analyze => 3
    case Evaluate => 4
    case Create => 5
  }

  /** Every level is listed, each exactly once. */
  lemma LevelsListed(i: nat)
    requires i < |Levels|
    ensures Index(Levels[i]) == i
  {
  }

  lemma LevelsComplete()
    ensures forall l: Level :: l in Levels
  {
    forall l: Level
      ensures l in Levels
    {
      assert Levels[Index(l)] == l;
    }
  }

  /** Every keyword is a non-empty literal without a list separator. */
  predicate IsKeyword(k: string) {
    |k| > 0 && ',' !in k
  }

  predicate KeywordList(ks: seq<string>) {
    forall i :: 0 <= i < |ks| ==> IsKeyword(ks[i])
  }

  /** `taxonomy_keywords[level]`, in the order the vocabulary lists them. */
  function Keywords(l: Level): (ks: seq<string>)
    ensures |ks| >= 3
  {
    match l
    case Remember => RememberKeywords()
    case Understand => UnderstandKeywords()
    case Apply => ApplyKeywords()
    case Analyze => AnalyzeKeywords()
    case Evaluate => EvaluateKeywords()
    case Create => CreateKeywords()
  }

  function RememberKeywords(): (ks: seq<string>)
    ensures |ks| >= 3
  {
    ["define", "list", "state", "identify", "recall", "recognize", "describe", "name", "locate", "find",
     "label", "select", "choose", "match", "outline", "restate", "duplicate", "memorize", "highlight", "indicate"]
  }

  function UnderstandKeywords(): (ks: seq<string>)
    ensures |ks| >= 3
  {
    ["explain", "summarize", "interpret", "classify", "compare", "exemplify", "illustrate", "rephrase", "translate",
     "estimate", "predict", "infer", "conclude", "generalize", "expand", "discuss", "review", "give an example"]
  }

  function ApplyKeywords(): (ks: seq<string>)
    ensures |ks| >= 3
  {
    ["apply", "demonstrate", "use", "implement", "solve", "operate", "execute", "show", "illustrate", "practice",
     "calculate", "modify", "construct", "produce", "experiment", "make", "change", "complete", "discover"]
  }

  function AnalyzeKeywords(): (ks: seq<string>)
    ensures |ks| >= 3
  {
    ["differentiate", "organize", "attribute", "examine", "compare", "contrast", "investigate", "categorize",
     "separate", "distinguish", "analyze", "inspect", "probe", "deconstruct", "correlate", "test", "relate",
     "study", "trace"]
  }

  function EvaluateKeywords(): (ks: seq<string>)
    ensures |ks| >= 3
  {
    ["judge", "recommend", "criticize", "assess", "justify", "support", "defend", "argue", "evaluate", "appraise",
     "conclude", "prioritize", "rank", "score", "choose", "weigh", "estimate", "validate", "interpret"]
  }

  function CreateKeywords(): (ks: seq<string>)
    ensures |ks| >= 3
  {
    ["design", "construct", "develop", "formulate", "generate", "produce", "invent", "compose", "assemble", "plan",
     "create", "originate", "initiate", "propose", "write", "prepare", "devise", "build", "model"]
  }

  /** Every level's keywords are well formed. */
  lemma KeywordsFormed(l: Level)
    ensures KeywordList(Keywords(l))
  {
    match l
    case Remember => RememberFormed();
    case Understand => UnderstandFormed();
    case Apply => ApplyFormed();
    case Analyze => AnalyzeFormed();
    case Evaluate => EvaluateFormed();
    case Create => CreateFormed();
  }

  lemma RememberFormed() ensures KeywordList(RememberKeywords()) {}
  lemma UnderstandFormed() ensures KeywordList(UnderstandKeywords()) {}
  lemma ApplyFormed() ensures KeywordList(ApplyKeywords()) {}
  lemma AnalyzeFormed() ensures KeywordList(AnalyzeKeywords()) {}
  lemma EvaluateFormed() ensures KeywordList(EvaluateKeywords()) {}
  lemma CreateFormed() ensures KeywordList(CreateKeywords()) {}

  /** `default_ideal_distribution[level]`, a percentage. */
  function IdealPercent(l: Level): (r: nat)
    ensures 10 <= r <= 20
  {
    match l
    case Remember => 10
    case Understand => 15
    case Apply => 20
    case Analyze => 20
    case Evaluate => 20
    case Create => 15
  }

  /** The six ideal percentages make up the whole paper. */
  lemma IdealDistributionSumsTo100()
    ensures IdealPercent(Remember) + IdealPercent(Understand) + IdealPercent(Apply)
      + IdealPercent(Analyze) + IdealPercent(Evaluate) + IdealPercent(Create) == 100
  {
  }
}
