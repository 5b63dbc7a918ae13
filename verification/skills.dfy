/**
 * The skill matcher: which configured skills occur, case-insensitively, as
 * substrings of a posting's text, and the truncated percentage they cover.
 */
module Skills {
  import opened Wrappers
  import opened Text

  /** The default skill list, in its configured order. */
  const UserSkills: seq<string> := [
    "python", "sql", "power bi", "powerbi", "pandas", "numpy", "scikit-learn",
    "prophet", "arima", "streamlit", "aws", "gcp", "etl", "forecasting", "nlp", "shap"
  ]

  /** `(score, hits)` as returned by the matcher. */
  datatype SkillMatch = SkillMatch(score: int, hits: seq<string>)

  /** A skill counts when its lower-cased form occurs in the lower-cased text. */
  predicate Mentions(text: string, skill: string) {
    Contains(text, Lower(skill))
  }

  /**
   * The list comprehension `[s for s in skills if s.lower() in text]`: the
   * mentioned skills in list order, each as often as it is listed.
   */
  function MatchedSkills(text: string, skills: seq<string>): (hits: seq<string>)
    ensures |hits| <= |skills|
    ensures IsSubseq(hits, skills)
  {
    if |skills| == 0 then []
    else
      assert skills == [skills[0]] + skills[1..];
      var rest := MatchedSkills(text, skills[1..]);
      if Mentions(text, skills[0]) then
        assert ([skills[0]] + rest)[1..] == rest;
        [skills[0]] + rest
      else
        rest
  }

  /**
   * Each skill appears in the hits exactly as often as it is listed when it is
   * mentioned, and not at all otherwise; with the subsequence property this
   * pins the hit list down completely.
   */
  lemma {:induction false} MatchedSkillsCounts(text: string, skills: seq<string>)
    ensures forall x :: multiset(MatchedSkills(text, skills))[x]
                        == if Mentions(text, x) then multiset(skills)[x] else 0
  {
    if |skills| > 0 {
      assert skills == [skills[0]] + skills[1..];
      MatchedSkillsCounts(text, skills[1..]);
    }
  }

  /** A skill is among the hits exactly when it is listed and mentioned. */
  lemma {:induction false} HitIff(text: string, skills: seq<string>, s: string)
    ensures s in MatchedSkills(text, skills) <==> s in skills && Mentions(text, s)
  {
    if |skills| > 0 {
      assert skills == [skills[0]] + skills[1..];
      HitIff(text, skills[1..], s);
    }
  }

  /** Every skill is matched exactly when the hit list has the full length. */
  lemma {:induction false} AllMatchedIff(text: string, skills: seq<string>)
    ensures |MatchedSkills(text, skills)| == |skills| <==> forall i :: 0 <= i < |skills| ==> Mentions(text, skills[i])
  {
    if |skills| > 0 {
      AllMatchedIff(text, skills[1..]);
      if forall i :: 0 <= i < |skills| ==> Mentions(text, skills[i]) {
        assert forall i :: 0 <= i < |skills[1..]| ==> Mentions(text, skills[1..][i]) by {
          forall i | 0 <= i < |skills[1..]|
            ensures Mentions(text, skills[1..][i])
          {
            assert skills[1..][i] == skills[i + 1];
          }
        }
      }
      if |MatchedSkills(text, skills)| == |skills| {
        assert Mentions(text, skills[0]);
        forall i | 0 <= i < |skills|
          ensures Mentions(text, skills[i])
        {
          if i > 0 {
            assert skills[i] == skills[1..][i - 1];
          }
        }
      }
    }
  }

  /** No skill is matched exactly when the hit list is empty. */
  lemma {:induction false} NoneMatchedIff(text: string, skills: seq<string>)
    ensures |MatchedSkills(text, skills)| == 0 <==> forall i :: 0 <= i < |skills| ==> !Mentions(text, skills[i])
  {
    if |skills| > 0 {
      NoneMatchedIff(text, skills[1..]);
      if |MatchedSkills(text, skills)| == 0 {
        forall i | 0 <= i < |skills|
          ensures !Mentions(text, skills[i])
        {
          if i > 0 {
            assert skills[i] == skills[1..][i - 1];
          }
        }
      } else if !Mentions(text, skills[0]) {
        var i :| 0 <= i < |skills[1..]| && Mentions(text, skills[1..][i]);
        assert skills[1..][i] == skills[i + 1];
      }
    }
  }

  /** Text appended after a mention keeps it a mention. */
  lemma MentionsAppend(text: string, more: string, skill: string)
    requires Mentions(text, skill)
    ensures Mentions(text + more, skill)
  {
    var sub := Lower(skill);
    ContainsIffOccurs(text, sub);
    ContainsIffOccurs(text + more, sub);
    var i :| OccursAt(sub, text, i);
    assert (text + more)[i..i + |sub|] == text[i..i + |sub|];
    assert OccursAt(sub, text + more, i);
  }

  /** Appending text to a posting never loses a hit. */
  lemma {:induction false} MatchedSkillsGrow(text: string, more: string, skills: seq<string>)
    ensures |MatchedSkills(text, skills)| <= |MatchedSkills(text + more, skills)|
  {
    if |skills| > 0 {
      MatchedSkillsGrow(text, more, skills[1..]);
      if Mentions(text, skills[0]) {
        MentionsAppend(text, more, skills[0]);
      }
    }
  }

  /** Euclidean division brackets the dividend. */
  lemma DivBrackets(a: nat, b: nat)
    requires b > 0
    ensures (a / b) * b <= a < (a / b + 1) * b
  {
  }

  /** A positive factor can be cancelled from an inequality. */
  lemma MulCancel(x: int, y: int, d: int)
    requires d > 0 && x * d <= y * d
    ensures x <= y
  {
  }

  /** `int(len(hits) / max(1, n) * 100)`, capped at 100, in exact arithmetic. */
  function Percentage(count: nat, total: nat): (p: int)
    requires count <= total
    ensures 0 <= p <= 100
    ensures total == 0 ==> p == 0
    ensures total > 0 ==> p * total <= 100 * count < (p + 1) * total
  {
    var d := if total > 1 then total else 1;
    var score := (100 * count) / d;
    PercentageBounds(count, total, d, score);
    if score < 100 then score else 100
  }

  /** The bounds of `Percentage` before the cap, from Euclidean division by `max(1, n)`. */
  lemma PercentageBounds(count: nat, total: nat, d: nat, score: int)
    requires count <= total && d == (if total > 1 then total else 1)
    requires score == (100 * count) / d
    ensures 0 <= score <= 100
    ensures total == 0 ==> score == 0
    ensures total > 0 ==> score * total <= 100 * count < (score + 1) * total
  {
    DivBrackets(100 * count, d);
    assert 100 * count <= 100 * d;
    MulCancel(score, 100, d);
  }

  /** A positive factor can be cancelled from a strict inequality. */
  lemma MulLtCancel(x: int, y: int, d: int)
    requires d > 0 && x * d < y * d
    ensures x < y
  {
  }

  /** More hits never give a lower percentage. */
  lemma PercentageMonotone(c1: nat, c2: nat, total: nat)
    requires c1 <= c2 <= total
    ensures Percentage(c1, total) <= Percentage(c2, total)
  {
    if total > 0 {
      var p1, p2 := Percentage(c1, total), Percentage(c2, total);
      assert p1 * total <= 100 * c1 <= 100 * c2 < (p2 + 1) * total;
      MulLtCancel(p1, p2 + 1, total);
    }
  }

  /** The percentage is 100 exactly when every item counts. */
  lemma PercentageFullIff(count: nat, total: nat)
    requires count <= total && total > 0
    ensures Percentage(count, total) == 100 <==> count == total
  {
    var p := Percentage(count, total);
    if count < total {
      assert 100 * count < 100 * total;
      MulLtCancel(p, 100, total);
    }
  }

  /** `skill_match_score`: `None` text counts as empty; matching ignores case. */
  function SkillMatchScore(jobText: Option<string>, skills: seq<string>): (r: SkillMatch)
    ensures 0 <= r.score <= 100
    ensures |skills| == 0 ==> r.score == 0
    ensures r.hits == MatchedSkills(Lower(jobText.GetOr("")), skills)
    ensures |skills| > 0 ==> r.score * |skills| <= 100 * |r.hits| < (r.score + 1) * |skills|
  {
    var hits := MatchedSkills(Lower(jobText.GetOr("")), skills);
    SkillMatch(Percentage(|hits|, |skills|), hits)
  }

  /** A full score means every skill was found, and conversely. */
  lemma FullScoreIff(jobText: Option<string>, skills: seq<string>)
    requires |skills| > 0
    ensures SkillMatchScore(jobText, skills).score == 100
        <==> forall i :: 0 <= i < |skills| ==> Mentions(Lower(jobText.GetOr("")), skills[i])
  {
    var hits := MatchedSkills(Lower(jobText.GetOr("")), skills);
    AllMatchedIff(Lower(jobText.GetOr("")), skills);
    PercentageFullIff(|hits|, |skills|);
  }

  /** A zero score with at most 100 skills means no skill was found, and conversely. */
  lemma ZeroScoreIff(jobText: Option<string>, skills: seq<string>)
    requires 0 < |skills| <= 100
    ensures SkillMatchScore(jobText, skills).score == 0
        <==> forall i :: 0 <= i < |skills| ==> !Mentions(Lower(jobText.GetOr("")), skills[i])
  {
    var hits := MatchedSkills(Lower(jobText.GetOr("")), skills);
    NoneMatchedIff(Lower(jobText.GetOr("")), skills);
    if |hits| > 0 {
      var score := SkillMatchScore(jobText, skills).score;
      assert 100 * |hits| >= |skills|;
      assert (score + 1) * |skills| > 1 * |skills|;
      MulLtCancel(1, score + 1, |skills|);
    }
  }

  /** Appending text to a posting never lowers its skill score. */
  lemma ScoreGrowsWithText(text: string, more: string, skills: seq<string>)
    ensures SkillMatchScore(Some(text), skills).score <= SkillMatchScore(Some(text + more), skills).score
  {
    LowerAppend(text, more);
    MatchedSkillsGrow(Lower(text), Lower(more), skills);
    PercentageMonotone(|MatchedSkills(Lower(text), skills)|, |MatchedSkills(Lower(text + more), skills)|, |skills|);
  }

  /** With the sixteen default skills the score is at least 67 exactly when 11 or more match. */
  lemma DefaultScoreThreshold(jobText: Option<string>)
    ensures |UserSkills| == 16
    ensures SkillMatchScore(jobText, UserSkills).score >= 67
        <==> |SkillMatchScore(jobText, UserSkills).hits| >= 11
  {
  }
}
