# JobBot+ job scoring core, in Dafny

This project models the decision logic of the JobBot+ job-search assistant
(`apps.py`). The assistant fetches postings from a job-search API, scores them
against the user's skills and expected salary, tags each with a role
category, lists as the posting's skill gap those of the fixed skills nlp,
fastapi, docker and kubernetes that are not among its hits (fastapi, docker
and kubernetes always, nlp exactly when the posting does not mention it), and
sends a WhatsApp alert for high scores. Everything around that logic is user
interface or service glue. The model covers these pieces:

- **Salary parser** (`Salary`): `parse_salary_to_lpa`. It turns free text
  into lakhs per annum using three regular-expression tiers, first match
  wins. The tiers are a number with a unit (`lpa|lakh|lakhs|lac`), a number
  with a currency marker (`inr|₹`), and the first bare number. In the
  currency and bare tiers, values above 10000 are treated as rupees; the unit
  tier returns its number as is.
  The regular expressions are modelled under Python's leftmost-match
  semantics. `GroupIsMaximal` and `MatchesAtIffRegex` prove that the greedy
  reading of `\d+(\.\d+)?`, then greedy `\s*`, then a marker, matches exactly
  where the regular expression does, and always captures the same group.
- **Skill matcher** (`Skills`): `skill_match_score` over the 16-entry default
  skill list.
- **Role classifier** (`Classify`): `classify_job` over the six-category
  keyword table. Ties go to the first category in table order.
- **Composite scorer and call-site rules** (`Scoring`): `compute_job_score`,
  the skill-gap list (line 302), the alert gate (line 328) and the classifier
  input of the results table (line 261).

`Text` holds the string helpers: Python's `lower()`, `replace(",", "")`, the
substring test `in`, and the `\d` and `\s` classes. `Wrappers` holds `Option`
(Python's `None`) and `Result` (a raised exception).

Salary is a `real` and is computed in exact rational arithmetic. Python's
`int(x)` is modelled as truncation toward zero (`Scoring.Trunc`). Python's
`round(x, 1)` is modelled as exact round-half-to-even on tenths
(`Salary.RoundTenth`).

`apps.py` has no reject-keyword override, no recency or noise score, no
neutral score for a missing salary and no configurable weights. A missing
salary scores 0, the skill percentage is truncated, classifier ties go to the
first category (`data_scientist` when nothing matches), and the weights are
the constants 0.6 and 0.4.

## Model

| member | source | states |
|---|---|---|
| Salary.ParseSalaryToLpa | apps.py:88-111 | the parsed salary is never negative; `None` or empty text gives 0.0 |
| Salary.ParseNormalized | apps.py:93-111 | the three-tier parse of normalized text is never negative (the tier lemmas below fix its value in each tier) |
| Salary.Normalize | apps.py:91 | normalized text has no comma and no upper-case letter, and text without digits stays without digits |
| Salary.NormalizeDropsComma | apps.py:91 | deleting a comma anywhere does not change the normalized text (commas are thousands separators only) |
| Salary.DigitRunEnd | apps.py:93 | the greedy `\d+` run: every character it covers is a digit, and it stops at the end of the text or at a non-digit |
| Salary.SkipSpace | apps.py:93 | the greedy `\s*`: every character it covers is white space, and it stops at the end of the text or at a non-space |
| Salary.ScanNumeral | apps.py:93 | at a digit, the numeral read is a valid `\d+(\.\d+)?` span that cannot be extended by a digit or by a point and a digit |
| Salary.NumeralValue | apps.py:95 | `float(group)` of a numeral is its integer part when there is no point, and otherwise scaled by 10^k (k fraction digits) equals integer part·10^k plus the fraction digits; it lies between its integer part and the next integer |
| Salary.GroupIsMaximal | apps.py:93 | any split of `\d+(\.\d+)?` followed by white space and a unit or currency marker is the greedy numeral and the greedy white space, so backtracking never changes the group |
| Salary.MatchesAtIffRegex | apps.py:93-104 | the greedy reading matches at a position exactly when the regular expression (with any split) does, for all three patterns |
| Salary.RawValueAt | apps.py:95 | `float(m.group(1))` at a match is never negative |
| Salary.RawValueAtWholePart | apps.py:95 | the value read at a match lies between the value of the greedy digit run and the next integer, and equals that value when no point follows the run |
| Salary.FirstMatch | apps.py:104 | the search returns a matching position with no match before it, or none when no position matches |
| Salary.FirstMatchIsLeftmost | apps.py:93-105 | the search returns exactly the leftmost position where the regular expression matches, and nothing exactly when it matches nowhere |
| Salary.ParseUnitTier | apps.py:93-95 | when a number followed by a unit matches, the leftmost such number is returned unscaled, whatever else the text holds |
| Salary.ParseCurrencyTier | apps.py:97-102 | with no unit match, the leftmost number followed by `inr` or `₹` is returned after the currency rescaling |
| Salary.ParseBareTier | apps.py:104-109 | with neither marker, the first number in the text is returned after the unrounded rescaling |
| Salary.ParseWithoutDigit | apps.py:104-111 | text without a digit parses to 0.0 |
| Salary.RoundHalfEven | apps.py:101 | `round` returns an integer within one half of its argument, and the even one at a tie |
| Salary.RoundTenth | apps.py:101 | `round(x, 1)` is within 0.05 of `x` and a whole number of tenths |
| Salary.CurrencyScale | apps.py:99-102 | values up to 10000 are kept; larger ones become lakhs rounded to a whole number of tenths, at least 0.1 and within 0.05 of the exact quotient |
| Salary.BareScale | apps.py:106-109 | values up to 10000 are kept; larger ones are divided by 100000 exactly |
| Salary.UnitSuffixRoundTrip | apps.py:91-95 | for every natural n, "n", any white space and a unit marker in any letter case (e.g. "32 LPA"), followed by anything, parses back to n |
| Salary.CurrencySuffixRoundTrip | apps.py:97-102 | for every natural n, "n", any white space and `INR` or `₹` in any letter case parses to the currency rescaling of n |
| Salary.RupeePrefixFallsBack | apps.py:97-109 | a rupee sign before the number is no currency match, so the number takes the fallback tier |
| Salary.ParseSymbolThenDigits | apps.py:104-109 | text of one non-digit and then only digits matches neither marker tier and parses to the rescaled number after the symbol |
| Salary.LpaExample | apps.py:93-95 | "32 LPA" parses to 32.0 |
| Salary.LacsExample | apps.py:93-95 | "5 lacs" parses to 5.0, because the unit needs no word boundary |
| Salary.FractionExample | apps.py:93-95 | the normalized text "12.5 lpa" parses to 12.5: the fraction digits after the point are read |
| Salary.CurrencyExample | apps.py:97-102 | "1,500,000 INR" parses to 15.0 |
| Salary.RupeeExample | apps.py:104-109 | "₹3,200,000" parses to 32.0 by the fallback tier |
| Salary.ZeroExamples | apps.py:88-111 | "", `None` and "negotiable" parse to 0.0 |
| Text.Lower | apps.py:91 | `.lower()` keeps the length and maps each character to its lower-case form (ASCII letters only) |
| Text.RemoveChar | apps.py:91 | `.replace(",", "")` never lengthens the text and leaves no comma in it |
| Text.ContainsIffOccurs | apps.py:120 | the substring test `sub in s` holds exactly when `sub` occurs at some offset of `s` |
| Skills.MatchedSkills | apps.py:120 | the hits are a subsequence of the skill list, in list order, no longer than it |
| Skills.MatchedSkillsCounts | apps.py:120 | a skill whose lower-cased form occurs in the text appears in the hits as often as it is listed; any other skill appears not at all |
| Skills.HitIff | apps.py:120 | a skill is among the hits exactly when it is in the skill list and its lower-cased form occurs in the text |
| Skills.AllMatchedIff | apps.py:120 | the hit list is as long as the skill list exactly when every skill is mentioned |
| Skills.NoneMatchedIff | apps.py:120 | the hit list is empty exactly when no skill is mentioned |
| Skills.Percentage | apps.py:121-122 | the score lies in [0,100], is 0 for an empty list, and is the floor of 100·hits/n |
| Skills.PercentageMonotone | apps.py:121 | more hits never give a lower percentage |
| Skills.PercentageFullIff | apps.py:121-122 | the percentage is 100 exactly when every skill is a hit |
| Skills.SkillMatchScore | apps.py:118-122 | `None` text counts as empty; the score lies in [0,100], is 0 for an empty skill list, and is the floor of 100·hits/n |
| Skills.FullScoreIff | apps.py:118-122 | the score is 100 exactly when every skill is mentioned |
| Skills.ZeroScoreIff | apps.py:118-122 | with 1 to 100 skills, the score is 0 exactly when no skill is mentioned |
| Skills.ScoreGrowsWithText | apps.py:119-121 | appending text to a posting never lowers its skill score |
| Skills.DefaultScoreThreshold | apps.py:113-121 | with the 16 default skills, a score of at least 67 means at least 11 hits, and conversely |
| Classify.KeywordHitsCountsOccurring | apps.py:135 | a category's count is exactly the number of its keywords that occur in the text |
| Classify.KeywordHits | apps.py:135 | a category's count is at most its number of keywords; it is 0 exactly when no keyword occurs and full exactly when all occur |
| Classify.FirstMaxIndex | apps.py:136 | `max(..., key=...)` picks a maximal count, and every earlier count is strictly smaller |
| Classify.ClassifyWith | apps.py:133-136 | `None` text counts as empty; there is one count per category, each the number of its keywords occurring in the lower-cased text and at most its keyword list; the returned role is a category whose count is at least every other count |
| Classify.ClassifyJob | apps.py:124-136 | with the fixed table: six counts, each bounded by its keyword list |
| Classify.ClassifyPicksFirstMaximum | apps.py:136 | the role returned is the role of the first category with a maximal count: ties go to the earlier category |
| Classify.NoKeywordIsDataScientist | apps.py:124-136 | text with no keyword of any category has all counts 0 and is classified `data_scientist` |
| Scoring.Trunc | apps.py:143 | `int(x)` truncates toward zero |
| Scoring.SalaryScore | apps.py:143 | the salary score lies in [0,100], is 100 from 30 LPA up, and below that is the floor of 100·salary/30 |
| Scoring.SalaryScoreMonotone | apps.py:143 | a higher salary never gives a lower salary score |
| Scoring.Composite | apps.py:145 | the blend lies in [0,100] for components in [0,100], and is the floor of 0.6·skill + 0.4·salary score |
| Scoring.CompositeMonotone | apps.py:145 | raising either component never lowers the composite |
| Scoring.ComputeJobScore | apps.py:138-146 | the salary is the parse of the salary field when present and 0.0 otherwise; the hits are the default skills matched in the scoring text, which is title, description and company joined by single spaces, with an absent field read as "" and a `None` field printed as "None"; the skill score is the floor of 100·hits/16; the final score is the floor of the 60/40 blend of the skill score and the salary ramp, all in range |
| Scoring.ScoreIgnoresLocationAndLink | apps.py:139 | changing the location or the apply link never changes the score |
| Scoring.MissingSalaryNeverAlerts | apps.py:141-145 | a posting without salary text has salary 0, a final score of at most 60, and never raises the alert |
| Scoring.AlertBoundary | apps.py:328 | a score of exactly 80 sends the alert, 79 does not, and the gate is upward closed |
| Scoring.AlertNeedsStrongScores | apps.py:328 | on the 60/40 blend, reaching 80 needs a skill score of at least 67 and a salary of at least 15 LPA, and a skill score of 67 with a salary of 30 LPA is enough |
| Scoring.AlertNeedsStrongMatch | apps.py:328 | an alerted posting has a skill score of at least 67 (11 of 16 skills) and a salary of at least 15 LPA |
| Scoring.Without | apps.py:302 | the filtered list is a subsequence of the input, holding exactly the entries that are not hits |
| Scoring.SkillGap | apps.py:302 | the gap list keeps the order of nlp, fastapi, docker, kubernetes and holds exactly those that are not hits |
| Scoring.HitsAreUserSkills | apps.py:120 | a skill is a hit of a scored posting exactly when it is a default skill that its text mentions |
| Scoring.ToolsNeverHit | apps.py:113-116 | fastapi, docker and kubernetes are never hits, since they are not default skills |
| Scoring.NlpHitIff | apps.py:113-120 | nlp is a hit exactly when the posting text mentions it |
| Scoring.GapWithoutTools | apps.py:302 | when none of the three tools is a hit, the gap list is the three tools, with nlp in front when nlp is not a hit |
| Scoring.SkillGapOfJob | apps.py:302 | for every posting, the gap list always holds fastapi, docker and kubernetes, and holds nlp exactly when the text lacks it |
| Scoring.GetOrEmpty | apps.py:261 | `job.get(k, "")` is `None` exactly when the field is present but `None` |
| Scoring.ClassificationTextAsWritten | apps.py:261 | as written, building the classifier input raises `TypeError` exactly when title or description is `None`; otherwise it is their concatenation |
| Scoring.NullDescriptionRaises | apps.py:261 | a posting with a `None` description makes the results table raise |
| Scoring.ClassificationText | apps.py:261 | the corrected input is total and equals the as-written input wherever that one returns |
| Scoring.NullReadsAsAbsent | apps.py:261 | in the corrected input a `None` title or description behaves as an absent one |
| Scoring.RowCategoryAsWritten | apps.py:261 | as written, the category column raises `TypeError` exactly when title or description is `None`, and is otherwise one of the six configured roles |
| Scoring.RowCategory | apps.py:261 | the corrected category column (see Findings): always one of the six configured roles, and equal to the as-written column wherever that one exists |

## Left out

- User interface, logo and page layout (apps.py:18-50, 240-336): presentation and image file I/O.
- Google Sheets loading and logging (apps.py:56-68, 224-237), the job-search API fetch (apps.py:172-199) and the Twilio WhatsApp sender (apps.py:204-219): network services. A posting is a `Scoring.JobPosting` value, whose fields are the fetch's record keys.
- `uid` (random) and `datetime.now()` (clock) on the logged row.
- `extract_company_domain`: a wrapper over `tldextract` and the public-suffix list, which are not part of this model.
- `detect_emails`: it returns the elements of a `set` in unspecified order.
- The ranking of the results table (`df.sort_values`, apps.py:276): pandas' default sort is not stable, so ties are in unspecified order.
- `generate_resume_snippet`, `mini_project_suggestion` and `interview_answers`: fixed text templates.
- The category written to the sheet (apps.py:316) classifies the title alone. It is logging, and it is `Classify.ClassifyJob` applied to the title.
- Text.Lower: lower-cases ASCII letters only. Python's `lower()` also maps other Unicode upper-case letters, and a few of them to two characters.
- Text.IsDigit: `\d` is modelled as the ASCII digits. Python's `\d` and `float()` also accept other Unicode decimal digits.
- Text.IsSpace: `\s` is modelled as ASCII white space plus U+001C to U+001F, U+0085 and U+00A0. Python also counts the other Unicode space separators.
- Salary.NumeralValue: computes the exact decimal value. Python's `float()` gives the nearest double.
- Salary.CurrencyScale: rounds the exact quotient half to even. Python rounds the double nearest the quotient. At an exact tie such as 15000 rupees, Python gives 0.1, because the double nearest 0.15 lies below it; the model gives 0.2.
- Salary.BareScale: divides exactly. Python's quotient is the nearest double.
- Skills.Percentage: floors the exact 100·hits/n. Python computes `hits / n * 100` in doubles, which can land just below an integer; for example, 29 of 100 skills gives 28 in Python and 29 here. With the 16-entry default list every quotient is exact, so the two agree.
- Scoring.SalaryScore: uses exact arithmetic, where Python uses doubles. The two can differ by one point where 100·salary/30 is a whole number.
- Scoring.Composite: uses exact arithmetic, where Python uses doubles. The two can differ by one point where 0.6·skill + 0.4·salary score is a whole number.
- Scoring.ComputeJobScore: numerals are read exactly, at any length, with no floating-point overflow. In Python, a unit-tier salary above about 5.4·10^307 (for example "6" and 307 zeros, then " LPA") makes `salary_lpa / 30.0 * 100` overflow to `inf`, and so does any numeral whose `float()` is already `inf` (values above about 1.7977·10^308, in any tier); `int()` at apps.py:143 then raises `OverflowError`. The model instead gives a finite salary and a salary score of 100, and it does not model that error path.
- Scoring.Field: a field holds text or `None`. Other JSON values from the fetch, such as a number in `job_salary`, are not modelled.

## Findings

| source | as written | input that shows it | evidently intended | confidence | as-written member | corrected member |
|---|---|---|---|---|---|---|
| apps.py:261 | `job.get("title","") + job.get("description","")` adds the fields directly. The fetch stores `it.get("job_description")`, which is `None` when the API omits the description or returns null. | a posting whose `description` is present but `None` | a missing or `None` title or description counts as empty, as the `""` defaults suggest | medium, not executed | Scoring.NullDescriptionRaises | Scoring.ClassificationText |
