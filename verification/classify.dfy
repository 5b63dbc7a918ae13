/**
 * The role classifier: counts, per role category, how many of its keywords
 * occur in the lower-cased text, and picks the first category with the
 * highest count.
 */
module Classify {
  import opened Wrappers
  import opened Text

  /** One role category and its keywords, already lower-case. */
  datatype Category = Category(role: string, keywords: seq<string>)

  /** The categories in the order the keyword table declares them. */
  const ClassKeywords: seq<Category> := [
    Category("data_scientist", ["data scientist", "ml engineer", "machine learning", "deep learning"]),
    Category("data_engineer", ["spark", "airflow", "etl", "pipeline", "databricks"]),
    Category("analytics_engineer", ["analytics engineer", "dbt", "data modeling"]),
    Category("data_analyst", ["power bi", "tableau", "excel", "dashboard", "analyst"]),
    Category("ml_engineer", ["mlops", "docker", "kubernetes", "tensorflow"]),
    Category("nlp_engineer", ["nlp", "bert", "transformer", "text"])
  ]

  /** `(role, scores)` as returned by the classifier; `scores` follows the table order. */
  datatype Classification = Classification(role: string, scores: seq<nat>)

  /** `sum(kw in t for kw in kws)`: how many keywords occur (each counted once). */
  function KeywordHits(text: string, keywords: seq<string>): (n: nat)
    ensures n <= |keywords|
    ensures n == 0 <==> forall i :: 0 <= i < |keywords| ==> !Contains(text, keywords[i])
    ensures n == |keywords| <==> forall i :: 0 <= i < |keywords| ==> Contains(text, keywords[i])
  {
    if |keywords| == 0 then 0
    else
      var rest := KeywordHits(text, keywords[1..]);
      assert forall i :: 1 <= i < |keywords| ==> keywords[i] == keywords[1..][i - 1];
      (if Contains(text, keywords[0]) then 1 else 0) + rest
  }

  /** The positions of the keywords that occur in `text`. */
  ghost function Occurring(text: string, keywords: seq<string>): set<int> {
    set i | 0 <= i < |keywords| && Contains(text, keywords[i])
  }

  /** Counting over a concatenation adds the counts of the parts. */
  lemma {:induction false} KeywordHitsAppend(text: string, a: seq<string>, b: seq<string>)
    ensures KeywordHits(text, a + b) == KeywordHits(text, a) + KeywordHits(text, b)
  {
    if |a| == 0 {
      assert a + b == b;
    } else {
      assert (a + b)[1..] == a[1..] + b;
      KeywordHitsAppend(text, a[1..], b);
    }
  }

  /** The occurring positions of all keywords: those of all but the last, plus the last if it occurs. */
  lemma OccurringSnoc(text: string, keywords: seq<string>)
    requires |keywords| > 0
    ensures var last := |keywords| - 1;
      && last !in Occurring(text, keywords[..last])
      && Occurring(text, keywords)
         == Occurring(text, keywords[..last]) + (if Contains(text, keywords[last]) then {last} else {})
  {
  }

  /**
   * The count is the number of keywords that occur: exactly
   * `sum(kw in t for kw in kws)`, not merely its bounds.
   */
  lemma {:induction false} KeywordHitsCountsOccurring(text: string, keywords: seq<string>)
    ensures KeywordHits(text, keywords) == |Occurring(text, keywords)|
  {
    if |keywords| == 0 {
      assert Occurring(text, keywords) == {};
    } else {
      var last := |keywords| - 1;
      var init := keywords[..last];
      KeywordHitsCountsOccurring(text, init);
      assert init + [keywords[last]] == keywords;
      KeywordHitsAppend(text, init, [keywords[last]]);
      OccurringSnoc(text, keywords);
    }
  }

  /** `i` holds a maximal count, and every earlier count is strictly smaller. */
  predicate IsFirstMax(counts: seq<nat>, i: nat) {
    && i < |counts|
    && (forall j :: 0 <= j < |counts| ==> counts[j] <= counts[i])
    && (forall j :: 0 <= j < i ==> counts[j] < counts[i])
  }

  /** At most one position is the first maximum. */
  lemma FirstMaxUnique(counts: seq<nat>, i: nat, k: nat)
    requires IsFirstMax(counts, i) && IsFirstMax(counts, k)
    ensures i == k
  {
    assert counts[i] == counts[k];
  }

  /**
   * `max(scores, key=scores.get)`: scanning left to right and replacing the
   * best only on a strictly larger count, so the first maximum wins.
   */
  function FirstMaxIndex(counts: seq<nat>): (i: nat)
    requires |counts| > 0
    ensures IsFirstMax(counts, i)
  {
    if |counts| == 1 then 0
    else
      var k := FirstMaxIndex(counts[..|counts| - 1]);
      assert forall j :: 0 <= j < |counts| - 1 ==> counts[..|counts| - 1][j] == counts[j];
      if counts[|counts| - 1] > counts[k] then |counts| - 1 else k
  }

  /** The keyword count of every category. */
  function RoleScores(text: string, categories: seq<Category>): (scores: seq<nat>)
  {
    seq(|categories|, i requires 0 <= i < |categories| => KeywordHits(text, categories[i].keywords))
  }

  /** The classifier over a non-empty category table. */
  function ClassifyWith(text: Option<string>, categories: seq<Category>): (c: Classification)
    requires |categories| > 0
    ensures |c.scores| == |categories|
    ensures forall i :: 0 <= i < |categories| ==> c.scores[i] == KeywordHits(Lower(text.GetOr("")), categories[i].keywords)
    ensures forall i :: 0 <= i < |categories| ==> c.scores[i] <= |categories[i].keywords|
    ensures exists i :: (0 <= i < |categories| && c.role == categories[i].role
      && forall j :: 0 <= j < |categories| ==> c.scores[j] <= c.scores[i])
  {
    var scores := RoleScores(Lower(text.GetOr("")), categories);
    var best := FirstMaxIndex(scores);
    Classification(categories[best].role, scores)
  }

  /** `classify_job`: `None` text counts as empty. */
  function ClassifyJob(text: Option<string>): (c: Classification)
    ensures |c.scores| == |ClassKeywords|
    ensures forall i :: 0 <= i < |ClassKeywords| ==> c.scores[i] <= |ClassKeywords[i].keywords|
  {
    ClassifyWith(text, ClassKeywords)
  }

  /**
   * The role returned is the role of the FIRST category whose count is
   * maximal: ties go to the earlier category.
   */
  lemma ClassifyPicksFirstMaximum(text: Option<string>, categories: seq<Category>, i: nat)
    requires IsFirstMax(RoleScores(Lower(text.GetOr("")), categories), i)
    ensures ClassifyWith(text, categories).role == categories[i].role
  {
    var scores := RoleScores(Lower(text.GetOr("")), categories);
    FirstMaxUnique(scores, i, FirstMaxIndex(scores));
  }

  /** Text with no keyword of any category is classified "data_scientist". */
  lemma NoKeywordIsDataScientist(text: Option<string>)
    requires forall i, j :: (0 <= i < |ClassKeywords| && 0 <= j < |ClassKeywords[i].keywords|
      ==> !Contains(Lower(text.GetOr("")), ClassKeywords[i].keywords[j]))
    ensures ClassifyJob(text).role == "data_scientist"
    ensures forall i :: 0 <= i < |ClassKeywords| ==> ClassifyJob(text).scores[i] == 0
  {
    var scores := RoleScores(Lower(text.GetOr("")), ClassKeywords);
    assert forall i :: 0 <= i < |ClassKeywords| ==> scores[i] == 0;
    ClassifyPicksFirstMaximum(text, ClassKeywords, 0);
  }
}
