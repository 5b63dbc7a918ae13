/**
 * The composite job score and the decisions taken on it at the call site:
 * the salary ramp, the 60/40 blend, the skill-gap list and the alert gate.
 */
module Scoring {
  import opened Wrappers
  import opened Text
  import opened Salary
  import opened Skills
  import opened Classify

  /**
   * One field of a posting record: absent from the record, present but
   * `None`, or present text.
   */
  datatype Field = Absent | Null | Present(text: string)

  /** A posting as the fetcher records it. */
  datatype JobPosting = JobPosting(
    title: Field,
    company: Field,
    location: Field,
    salaryText: Field,
    description: Field,
    applyLink: Field)

  /** `(final, skill_score, salary_lpa, hits)` as returned by the scorer. */
  datatype JobScore = JobScore(final: int, skillScore: int, salaryLpa: real, hits: seq<string>)

  /** The salary that earns a full salary score, in lakhs per annum. */
  const TargetLpa: real := 30.0

  /** Scores at or above this send the WhatsApp alert. */
  const AlertThreshold: int := 80

  /** The skills the skill-gap panel checks, in display order. */
  const GapSkills: seq<string> := ["nlp", "fastapi", "docker", "kubernetes"]

  /** `str(job.get(k, ""))`: absent is empty, `None` prints as "None". */
  function FieldString(f: Field): string {
    match f
    case Absent => ""
    case Null => "None"
    case Present(s) => s
  }

  /** `" ".join(...)` of title, description and company; location is not used. */
  function ScoringText(job: JobPosting): string {
    FieldString(job.title) + " " + FieldString(job.description) + " " + FieldString(job.company)
  }

  /** Python's `int(x)`: truncation toward zero. */
  function Trunc(x: real): (n: int)
    ensures x >= 0.0 ==> n as real <= x < n as real + 1.0
    ensures x < 0.0 ==> n as real - 1.0 < x <= n as real
  {
    if x >= 0.0 then x.Floor else -((-x).Floor)
  }

  /** Truncation never reverses an order. */
  lemma TruncMonotone(x: real, y: real)
    requires x <= y
    ensures Trunc(x) <= Trunc(y)
  {
  }

  /** `min(100, int(salary_lpa / 30.0 * 100))`: a linear ramp to the target. */
  function SalaryScore(lpa: real): (r: int)
    ensures lpa >= 0.0 ==> 0 <= r <= 100
    ensures lpa >= TargetLpa ==> r == 100
    ensures 0.0 <= lpa < TargetLpa ==> r as real * TargetLpa <= lpa * 100.0 < (r as real + 1.0) * TargetLpa
  {
    var raw := Trunc(lpa / TargetLpa * 100.0);
    if raw < 100 then raw else 100
  }

  /** A higher salary never earns a lower salary score. */
  lemma SalaryScoreMonotone(a: real, b: real)
    requires a <= b
    ensures SalaryScore(a) <= SalaryScore(b)
  {
    TruncMonotone(a / TargetLpa * 100.0, b / TargetLpa * 100.0);
  }

  /** `int(skill_score * 0.6 + sal_score * 0.4)`. */
  function Composite(skill: int, sal: int): (r: int)
    ensures 0 <= skill <= 100 && 0 <= sal <= 100 ==> 0 <= r <= 100
    ensures skill >= 0 && sal >= 0 ==> 10 * r <= 6 * skill + 4 * sal < 10 * (r + 1)
  {
    Trunc(skill as real * 0.6 + sal as real * 0.4)
  }

  /** Raising either component never lowers the composite. */
  lemma CompositeMonotone(skill1: int, sal1: int, skill2: int, sal2: int)
    requires skill1 <= skill2 && sal1 <= sal2
    ensures Composite(skill1, sal1) <= Composite(skill2, sal2)
  {
    TruncMonotone(skill1 as real * 0.6 + sal1 as real * 0.4, skill2 as real * 0.6 + sal2 as real * 0.4);
  }

  /** `compute_job_score` with the default skill list. */
  function ComputeJobScore(job: JobPosting): (r: JobScore)
    ensures 0 <= r.final <= 100 && 0 <= r.skillScore <= 100 && r.salaryLpa >= 0.0
    ensures job.salaryText.Present? ==> r.salaryLpa == ParseSalaryToLpa(Some(job.salaryText.text))
    ensures !job.salaryText.Present? ==> r.salaryLpa == 0.0
    ensures r.hits == MatchedSkills(Lower(ScoringText(job)), UserSkills)
    ensures r.skillScore * |UserSkills| <= 100 * |r.hits| < (r.skillScore + 1) * |UserSkills|
    ensures 10 * r.final <= 6 * r.skillScore + 4 * SalaryScore(r.salaryLpa) < 10 * (r.final + 1)
  {
    var m := SkillMatchScore(Some(ScoringText(job)), UserSkills);
    assert |UserSkills| == 16;
    var lpa := ParseSalaryToLpa(Some(TextOrEmpty(job.salaryText)));
    JobScore(Composite(m.score, SalaryScore(lpa)), m.score, lpa, m.hits)
  }

  /** The score ignores location and apply link. */
  lemma ScoreIgnoresLocationAndLink(job: JobPosting, location: Field, link: Field)
    ensures ComputeJobScore(job.(location := location, applyLink := link)) == ComputeJobScore(job)
  {
  }

  /** The alert gate: `score >= 80`. */
  predicate ShouldAlert(score: int) {
    score >= AlertThreshold
  }

  /** Exactly 80 qualifies; 79 does not. */
  lemma AlertBoundary()
    ensures ShouldAlert(AlertThreshold) && !ShouldAlert(AlertThreshold - 1)
    ensures forall s: int :: ShouldAlert(s) ==> ShouldAlert(s + 1)
  {
  }

  /**
   * A posting without salary text scores at most 60 (a missing salary scores
   * 0, not a neutral midpoint), so it can never raise the alert.
   */
  lemma MissingSalaryNeverAlerts(job: JobPosting)
    requires TextOrEmpty(job.salaryText) == ""
    ensures ComputeJobScore(job).salaryLpa == 0.0
    ensures ComputeJobScore(job).final <= 60
    ensures !ShouldAlert(ComputeJobScore(job).final)
  {
  }

  /**
   * On the blend alone: an alert needs a skill score of at least 67 and a
   * salary of at least 15 lakhs, and those 67 points with the full salary
   * score are enough.
   */
  lemma AlertNeedsStrongScores(skill: int, lpa: real)
    requires 0 <= skill <= 100 && lpa >= 0.0
    ensures ShouldAlert(Composite(skill, SalaryScore(lpa))) ==> skill >= 67 && lpa >= 15.0
    ensures skill >= 67 && lpa >= TargetLpa ==> ShouldAlert(Composite(skill, SalaryScore(lpa)))
  {
    var sal := SalaryScore(lpa);
    var r := Composite(skill, sal);
    if ShouldAlert(r) {
      assert 800 <= 6 * skill + 4 * sal;
      assert sal >= 50;
    }
  }

  /**
   * An alerted posting has a skill score of at least 67 (11 of the 16
   * default skills) and a salary of at least 15 lakhs.
   */
  lemma AlertNeedsStrongMatch(job: JobPosting)
    ensures ShouldAlert(ComputeJobScore(job).final) ==>
      && ComputeJobScore(job).skillScore >= 67
      && |ComputeJobScore(job).hits| >= 11
      && ComputeJobScore(job).salaryLpa >= 15.0
  {
    var r := ComputeJobScore(job);
    AlertNeedsStrongScores(r.skillScore, r.salaryLpa);
    DefaultScoreThreshold(Some(ScoringText(job)));
  }

  /** `[s for s in xs if s not in hits]`. */
  function Without(xs: seq<string>, hits: seq<string>): (r: seq<string>)
    ensures IsSubseq(r, xs)
    ensures forall s :: s in r <==> s in xs && s !in hits
  {
    if |xs| == 0 then []
    else
      var rest := Without(xs[1..], hits);
      assert forall s :: s in xs <==> s == xs[0] || s in xs[1..];
      if xs[0] in hits then rest
      else
        assert ([xs[0]] + rest)[1..] == rest;
        [xs[0]] + rest
  }

  /** The skill-gap panel: gap skills not among the hits, in display order. */
  function SkillGap(hits: seq<string>): (missing: seq<string>)
    ensures IsSubseq(missing, GapSkills)
    ensures forall s :: s in missing <==> s in GapSkills && s !in hits
  {
    Without(GapSkills, hits)
  }

  /** A hit of a scored posting is exactly a default skill its text mentions. */
  lemma HitsAreUserSkills(job: JobPosting, s: string)
    ensures s in ComputeJobScore(job).hits <==> s in UserSkills && Mentions(Lower(ScoringText(job)), s)
  {
    HitIff(Lower(ScoringText(job)), UserSkills, s);
  }

  /** fastapi, docker and kubernetes are not default skills. */
  lemma ToolsAreNotUserSkills()
    ensures "fastapi" !in UserSkills && "docker" !in UserSkills && "kubernetes" !in UserSkills
  {
  }

  /** ... so they are never hits. */
  lemma ToolsNeverHit(job: JobPosting)
    ensures forall s :: s in ["fastapi", "docker", "kubernetes"] ==> s !in ComputeJobScore(job).hits
  {
    ToolsAreNotUserSkills();
    HitsAreUserSkills(job, "fastapi");
    HitsAreUserSkills(job, "docker");
    HitsAreUserSkills(job, "kubernetes");
  }

  /** nlp is a default skill, so it is a hit exactly when the text mentions it. */
  lemma NlpHitIff(job: JobPosting)
    ensures "nlp" in ComputeJobScore(job).hits <==> Mentions(Lower(ScoringText(job)), "nlp")
  {
    assert UserSkills[14] == "nlp";
    HitsAreUserSkills(job, "nlp");
  }

  /** The gap list when none of the three tools is a hit. */
  lemma GapWithoutTools(hits: seq<string>)
    requires forall s :: s in ["fastapi", "docker", "kubernetes"] ==> s !in hits
    ensures SkillGap(hits) == if "nlp" in hits then ["fastapi", "docker", "kubernetes"] else GapSkills
  {
    var tail := ["fastapi", "docker", "kubernetes"];
    assert GapSkills[1..] == tail;
    assert tail[1..] == ["docker", "kubernetes"];
    assert tail[1..][1..] == ["kubernetes"];
    assert tail[1..][1..][1..] == [];
    assert Without(tail[1..][1..], hits) == ["kubernetes"];
    assert Without(tail[1..], hits) == ["docker", "kubernetes"];
    assert Without(tail, hits) == tail;
  }

  /**
   * fastapi, docker and kubernetes are always reported missing; nlp is
   * reported exactly when the text lacks it.
   */
  lemma SkillGapOfJob(job: JobPosting)
    ensures SkillGap(ComputeJobScore(job).hits)
      == if Mentions(Lower(ScoringText(job)), "nlp") then ["fastapi", "docker", "kubernetes"] else GapSkills
  {
    ToolsNeverHit(job);
    NlpHitIff(job);
    GapWithoutTools(ComputeJobScore(job).hits);
  }

  /** The exception a call raises. */
  datatype PyError = TypeError

  /** `job.get(k, "")` without `str()`: absent gives "", `None` stays `None`. */
  function GetOrEmpty(f: Field): (r: Option<string>)
    ensures r.None? <==> f == Null
  {
    match f
    case Absent => Some("")
    case Null => None
    case Present(s) => Some(s)
  }

  /**
   * The classifier input of the results table AS WRITTEN:
   * `job.get("title","") + job.get("description","")`, with no separator;
   * adding `None` to a string raises `TypeError`.
   */
  function ClassificationTextAsWritten(job: JobPosting): (r: Result<string, PyError>)
    ensures r.Failure? <==> job.title == Null || job.description == Null
    ensures r.Success? ==> r.value == GetOrEmpty(job.title).value + GetOrEmpty(job.description).value
  {
    var t := GetOrEmpty(job.title);
    var d := GetOrEmpty(job.description);
    if t.Some? && d.Some? then Success(t.value + d.value) else Failure(TypeError)
  }

  /** A posting whose description came back as `None` stops the results table. */
  lemma NullDescriptionRaises()
    ensures ClassificationTextAsWritten(JobPosting(
      Present("Data Scientist"), Present("Acme"), Present("Pune"),
      Present("32 LPA"), Null, Present("https://acme.example/careers"))) == Failure(TypeError)
  {
  }

  /**
   * The text of a field with `None` read as empty: `job.get("salary_text") or ""`,
   * and the reading of the `""` default that the classifier input evidently intends.
   */
  function TextOrEmpty(f: Field): string {
    match f
    case Present(s) => s
    case _ => ""
  }

  /**
   * The classifier input as evidently intended: a missing or `None` title or
   * description counts as empty, and wherever the code as written returns,
   * this returns the same text.
   */
  function ClassificationText(job: JobPosting): (t: string)
    ensures ClassificationTextAsWritten(job).Success? ==> t == ClassificationTextAsWritten(job).value
    ensures |t| == |TextOrEmpty(job.title)| + |TextOrEmpty(job.description)|
  {
    TextOrEmpty(job.title) + TextOrEmpty(job.description)
  }

  /** A `None` field and an absent one give the same classifier input. */
  lemma NullReadsAsAbsent(job: JobPosting)
    requires job.title == Null || job.description == Null
    ensures ClassificationText(job) == ClassificationText(job.(
      title := if job.title == Null then Absent else job.title,
      description := if job.description == Null then Absent else job.description))
    ensures ClassificationText(job) == ClassificationTextAsWritten(job.(
      title := if job.title == Null then Absent else job.title,
      description := if job.description == Null then Absent else job.description)).value
  {
  }

  /**
   * The category column of the results table as written: the classifier of
   * title plus description, or `TypeError` when either of them is `None`.
   */
  function RowCategoryAsWritten(job: JobPosting): (r: Result<string, PyError>)
    ensures r.Failure? <==> job.title == Null || job.description == Null
    ensures r.Success? ==> exists i :: 0 <= i < |ClassKeywords| && r.value == ClassKeywords[i].role
  {
    match ClassificationTextAsWritten(job)
    case Success(t) => Success(ClassifyJob(Some(t)).role)
    case Failure(e) => Failure(e)
  }

  /**
   * The category column as evidently intended, over the corrected classifier
   * input: always one of the configured roles, and the as-written column
   * wherever that one exists.
   */
  function RowCategory(job: JobPosting): (role: string)
    ensures exists i :: 0 <= i < |ClassKeywords| && role == ClassKeywords[i].role
    ensures RowCategoryAsWritten(job).Success? ==> role == RowCategoryAsWritten(job).value
  {
    ClassifyJob(Some(ClassificationText(job))).role
  }
}
