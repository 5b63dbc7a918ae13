/**
 * The salary text parser of the job scorer: free text such as "32 LPA",
 * "1,500,000 INR" or "₹3,200,000" becomes a figure in lakhs per annum
 * (one lakh is 100,000 rupees).
 *
 * The three regular expressions of the parser are read under Python's
 * leftmost-match semantics: start positions are tried from the left, and at a
 * start position the number is the maximal `\d+(\.\d+)?`. `RegexMatchesAt`
 * states the regular-expression reading with an arbitrary split of the
 * number; `MatchesAtIffRegex` and `GroupIsMaximal` show that the maximal
 * reading is the only one that can ever succeed, because every marker starts
 * with a letter or the rupee sign.
 */
module Salary {
  import opened Wrappers
  import opened Text

  /** The alternation `lpa|lakh|lakhs|lac` of the first pattern. */
  const UnitMarkers: seq<string> := ["lpa", "lakh", "lakhs", "lac"]

  /** The rupee sign U+20B9. */
  const Rupee: char := '\U{20B9}'

  /** The alternation `inr|₹` of the second pattern. */
  const CurrencyMarkers: seq<string> := ["inr", [Rupee]]

  /** Above this raw value a number is taken to be rupees rather than lakhs. */
  const RupeeThreshold: real := 10000.0

  /** Rupees in one lakh. */
  const RupeesPerLakh: real := 100000.0

  /** The three patterns, in the order the parser tries them. */
  datatype Tier = UnitTier | CurrencyTier | BareTier

  /** The markers a tier's pattern requires after the number. */
  function Markers(t: Tier): seq<string> {
    match t
    case UnitTier => UnitMarkers
    case CurrencyTier => CurrencyMarkers
    case BareTier => []
  }

  /** Every marker starts with a character that is no digit, no point and no space. */
  lemma MarkersStartWithSymbol(t: Tier, m: string)
    requires m in Markers(t)
    ensures |m| > 0 && !IsDigit(m[0]) && m[0] != '.' && !IsSpace(m[0]) && ',' !in m
  {
  }

  /** Every character over `[i, j)` is a `\d` digit. */
  predicate AllDigits(s: string, i: nat, j: nat)
    requires i <= j <= |s|
  {
    forall k :: i <= k < j ==> IsDigit(s[k])
  }

  /** Every character over `[i, j)` is `\s` white space. */
  predicate AllSpaces(s: string, i: nat, j: nat)
    requires i <= j <= |s|
  {
    forall k :: i <= k < j ==> IsSpace(s[k])
  }

  /** The end of the run of digits that starts at `p`: greedy `\d*`. */
  function DigitRunEnd(s: string, p: nat): (e: nat)
    requires p <= |s|
    ensures p <= e <= |s|
    ensures AllDigits(s, p, e)
    ensures e == |s| || !IsDigit(s[e])
    decreases |s| - p
  {
    if p < |s| && IsDigit(s[p]) then DigitRunEnd(s, p + 1) else p
  }

  /** A digit run is determined by where it starts. */
  lemma DigitRunEndUnique(s: string, p: nat, e: nat)
    requires p <= e <= |s| && AllDigits(s, p, e)
    requires e == |s| || !IsDigit(s[e])
    ensures DigitRunEnd(s, p) == e
  {
  }

  /** The end of the run of white space that starts at `p`: greedy `\s*`. */
  function SkipSpace(s: string, p: nat): (e: nat)
    requires p <= |s|
    ensures p <= e <= |s|
    ensures AllSpaces(s, p, e)
    ensures e == |s| || !IsSpace(s[e])
    decreases |s| - p
  {
    if p < |s| && IsSpace(s[p]) then SkipSpace(s, p + 1) else p
  }

  /** A run of white space is determined by where it starts. */
  lemma SkipSpaceUnique(s: string, p: nat, e: nat)
    requires p <= e <= |s| && AllSpaces(s, p, e)
    requires e == |s| || !IsSpace(s[e])
    ensures SkipSpace(s, p) == e
  {
  }

  /**
   * A span `s[start..end]` read as `\d+(\.\d+)?`: integer digits up to `point`,
   * then, when `end > point`, a point and at least one fraction digit.
   */
  datatype Numeral = Numeral(start: nat, point: nat, end: nat)

  /** `s[p..e]` matches `\d+(\.\d+)?` with the integer part ending at `q`. */
  predicate NumeralSpan(s: string, p: nat, q: nat, e: nat) {
    && p < q <= e <= |s|
    && AllDigits(s, p, q)
    && (e == q || (s[q] == '.' && q + 1 < e && AllDigits(s, q + 1, e)))
  }

  /** The greedy reading of `\d+(\.\d+)?` at a digit. */
  function ScanNumeral(s: string, p: nat): (x: Numeral)
    requires p < |s| && IsDigit(s[p])
    ensures x.start == p && NumeralSpan(s, p, x.point, x.end)
    ensures x.end == |s| || !IsDigit(s[x.end])
    ensures x.point == |s| || !IsDigit(s[x.point])
    ensures x.end == x.point ==> !(x.point + 1 < |s| && s[x.point] == '.' && IsDigit(s[x.point + 1]))
  {
    var q := DigitRunEnd(s, p);
    if q + 1 < |s| && s[q] == '.' && IsDigit(s[q + 1]) then Numeral(p, q, DigitRunEnd(s, q + 1))
    else Numeral(p, q, q)
  }

  /** A non-negative `x` whose multiple by `d` stays below `d` is below one. */
  lemma BelowOneByScale(x: real, d: real)
    requires d > 0.0 && x * d < d
    ensures x < 1.0
  {
    if x >= 1.0 {
      assert x * d - d == (x - 1.0) * d;
    }
  }

  /** `w + f / d` for a fraction `f / d` below one: scaled by `d` it is `w * d + f`. */
  function DecimalValue(w: nat, f: nat, d: nat): (v: real)
    requires f < d
    ensures v * d as real == w as real * d as real + f as real
    ensures w as real <= v < w as real + 1.0
  {
    var x := f as real / d as real;
    assert x * d as real == f as real;
    BelowOneByScale(x, d as real);
    w as real + x
  }

  /** The value of the digits over `[i, j)`, Python's `int(s[i:j])`. */
  function DigitsAt(s: string, i: nat, j: nat): nat
    requires i <= j <= |s| && AllDigits(s, i, j)
  {
    assert forall k :: 0 <= k < j - i ==> s[i..j][k] == s[i + k];
    DigitsValue(s[i..j])
  }

  /** `k` digits are worth less than `10` to the power `k`. */
  lemma DigitsAtBelowPow10(s: string, i: nat, j: nat)
    requires i <= j <= |s| && AllDigits(s, i, j)
    ensures DigitsAt(s, i, j) < Pow10(j - i)
  {
    DigitsValueBelowPow10(s[i..j]);
  }

  /** Python's `float(s[p..e])` on the numeral, in exact rational arithmetic. */
  function NumeralValue(s: string, p: nat, q: nat, e: nat): (v: real)
    requires NumeralSpan(s, p, q, e)
    ensures v >= 0.0
    ensures e == q ==> v == DigitsAt(s, p, q) as real
    ensures e > q ==> (v * Pow10(e - q - 1) as real
      == DigitsAt(s, p, q) as real * Pow10(e - q - 1) as real + DigitsAt(s, q + 1, e) as real)
    ensures DigitsAt(s, p, q) as real <= v < DigitsAt(s, p, q) as real + 1.0
  {
    var whole := DigitsAt(s, p, q);
    if e == q then whole as real
    else
      var frac := DigitsAt(s, q + 1, e);
      DigitsAtBelowPow10(s, q + 1, e);
      DecimalValue(whole, frac, Pow10(e - q - 1))
  }

  /** Some marker of tier `t` begins at `e`; the bare tier needs none. */
  predicate MarkerAt(s: string, e: nat, t: Tier)
    requires e <= |s|
  {
    t == BareTier || exists m :: m in Markers(t) && IsPrefix(m, s[e..])
  }

  /** The parser's reading: the greedy numeral at `p`, greedy space, then a marker. */
  predicate MatchesAt(s: string, p: nat, t: Tier) {
    && p < |s| && IsDigit(s[p])
    && var x := ScanNumeral(s, p);
       MarkerAt(s, if t == BareTier then x.end else SkipSpace(s, x.end), t)
  }

  /**
   * The regular expression's reading: SOME split of `\d+(\.\d+)?` at `p`,
   * followed (except in the bare tier) by `\s*` and a marker.
   */
  ghost predicate RegexMatchesAt(s: string, p: nat, t: Tier) {
    exists q: nat, e: nat, e2: nat ::
      && NumeralSpan(s, p, q, e)
      && e <= e2 <= |s| && AllSpaces(s, e, e2)
      && MarkerAt(s, e2, t)
  }

  /**
   * Backtracking never helps: whenever the number, some white space and a
   * marker match at `p`, the number is the greedy numeral and the white space
   * the greedy run.
   */
  lemma GroupIsMaximal(s: string, p: nat, q: nat, e: nat, e2: nat, t: Tier)
    requires t != BareTier
    requires NumeralSpan(s, p, q, e) && e <= e2 <= |s| && AllSpaces(s, e, e2)
    requires MarkerAt(s, e2, t)
    ensures ScanNumeral(s, p) == Numeral(p, q, e)
    ensures SkipSpace(s, e) == e2
  {
    var m :| m in Markers(t) && IsPrefix(m, s[e2..]);
    MarkersStartWithSymbol(t, m);
    assert e2 < |s| && s[e2] == m[0];
    // The character after the number is white space or the marker's first.
    assert !IsDigit(s[e]) && s[e] != '.';
    SkipSpaceUnique(s, e, e2);
    if e == q {
      DigitRunEndUnique(s, p, q);
    } else {
      DigitRunEndUnique(s, p, q);
      DigitRunEndUnique(s, q + 1, e);
    }
  }

  /** The greedy reading succeeds exactly where the regular expression does. */
  lemma MatchesAtIffRegex(s: string, p: nat, t: Tier)
    ensures MatchesAt(s, p, t) <==> RegexMatchesAt(s, p, t)
  {
    if MatchesAt(s, p, t) {
      var x := ScanNumeral(s, p);
      var e2 := if t == BareTier then x.end else SkipSpace(s, x.end);
      assert NumeralSpan(s, p, x.point, x.end) && AllSpaces(s, x.end, e2) && MarkerAt(s, e2, t);
    }
    if RegexMatchesAt(s, p, t) {
      var q: nat, e: nat, e2: nat :| NumeralSpan(s, p, q, e) && e <= e2 <= |s|
        && AllSpaces(s, e, e2) && MarkerAt(s, e2, t);
      assert IsDigit(s[p]);
      if t != BareTier {
        GroupIsMaximal(s, p, q, e, e2, t);
      }
    }
  }

  /** The leftmost start position at which the regular expression matches. */
  ghost predicate LeftmostRegexMatch(s: string, p: nat, t: Tier) {
    RegexMatchesAt(s, p, t) && forall q: nat :: q < p ==> !RegexMatchesAt(s, q, t)
  }

  /** `re.search`: the first start position at or after `from` that matches. */
  function FirstMatch(s: string, from: nat, t: Tier): (r: Option<nat>)
    requires from <= |s|
    ensures r.Some? ==> from <= r.value < |s| && MatchesAt(s, r.value, t)
    ensures r.Some? ==> forall q: nat :: from <= q < r.value ==> !MatchesAt(s, q, t)
    ensures r.None? ==> forall q: nat :: from <= q < |s| ==> !MatchesAt(s, q, t)
    decreases |s| - from
  {
    if from == |s| then None
    else if MatchesAt(s, from, t) then Some(from)
    else FirstMatch(s, from + 1, t)
  }

  /** `float(m.group(1))` for a match at `p`. */
  function RawValueAt(s: string, p: nat): (v: real)
    requires p < |s| && IsDigit(s[p])
    ensures v >= 0.0
  {
    var x := ScanNumeral(s, p);
    NumeralValue(s, p, x.point, x.end)
  }

  /**
   * The value read at `p`: its whole part is the greedy digit run at `p`, and
   * a fraction, when read, adds less than one.
   */
  lemma RawValueAtWholePart(s: string, p: nat)
    requires p < |s| && IsDigit(s[p])
    ensures var w := DigitsAt(s, p, DigitRunEnd(s, p)) as real;
      w <= RawValueAt(s, p) < w + 1.0
    ensures var q := DigitRunEnd(s, p);
      (q == |s| || s[q] != '.') ==> RawValueAt(s, p) == DigitsAt(s, p, q) as real
  {
  }

  /** Python's `round(x)`: the nearest integer, halves going to the even one. */
  function RoundHalfEven(x: real): (n: int)
    ensures -0.5 <= n as real - x <= 0.5
    ensures (n as real - x == 0.5 || x - n as real == 0.5) ==> n % 2 == 0
  {
    var f := x.Floor;
    var d := x - f as real;
    if d < 0.5 then f
    else if d > 0.5 then f + 1
    else if f % 2 == 0 then f
    else f + 1
  }

  /** `round(x, 1)`: the nearest multiple of one tenth. */
  function RoundTenth(x: real): (r: real)
    ensures -0.05 <= r - x <= 0.05
    ensures (r * 10.0).Floor as real == r * 10.0
  {
    RoundHalfEven(x * 10.0) as real / 10.0
  }

  /** The currency tier's rescaling: large values are rupees, rounded to 0.1 lakh. */
  function CurrencyScale(v: real): (r: real)
    requires v >= 0.0
    ensures r >= 0.0
    ensures v <= RupeeThreshold ==> r == v
    ensures v > RupeeThreshold ==> 0.1 <= r && -0.05 <= r - v / RupeesPerLakh <= 0.05
    ensures v > RupeeThreshold ==> (r * 10.0).Floor as real == r * 10.0
  {
    if v > RupeeThreshold then RoundTenth(v / RupeesPerLakh) else v
  }

  /** The fallback tier's rescaling: large values are rupees, not rounded. */
  function BareScale(v: real): (r: real)
    requires v >= 0.0
    ensures r >= 0.0
    ensures v <= RupeeThreshold ==> r == v
    ensures v > RupeeThreshold ==> r * RupeesPerLakh == v && r > 0.1
  {
    if v > RupeeThreshold then v / RupeesPerLakh else v
  }

  /** `salary_text.replace(",", "").lower()`. */
  function Normalize(text: string): (s: string)
    ensures |s| <= |text|
    ensures ',' !in s && IsLowerCase(s)
    ensures (forall i :: 0 <= i < |text| ==> !IsDigit(text[i])) ==> forall i :: 0 <= i < |s| ==> !IsDigit(s[i])
  {
    var r := RemoveChar(text, ',');
    RemoveCharKeepsOthers(text, ',');
    LowerFixesLowerCase(r);
    Lower(r)
  }

  /** The three tiers on normalized text, first match wins. */
  function ParseNormalized(s: string): (r: real)
    ensures r >= 0.0
  {
    match FirstMatch(s, 0, UnitTier)
    case Some(p) => RawValueAt(s, p)
    case None =>
      match FirstMatch(s, 0, CurrencyTier)
      case Some(p) => CurrencyScale(RawValueAt(s, p))
      case None =>
        match FirstMatch(s, 0, BareTier)
        case Some(p) => BareScale(RawValueAt(s, p))
        case None => 0.0
  }

  /** `parse_salary_to_lpa`: `None` or empty text gives 0.0. */
  function ParseSalaryToLpa(text: Option<string>): (r: real)
    ensures r >= 0.0
    ensures text == None || text == Some("") ==> r == 0.0
  {
    if text.None? || text.value == "" then 0.0
    else ParseNormalized(Normalize(text.value))
  }

  /** The search finds exactly the leftmost position where the regular expression matches. */
  lemma FirstMatchIsLeftmost(s: string, t: Tier)
    ensures forall p: nat :: FirstMatch(s, 0, t) == Some(p) <==> LeftmostRegexMatch(s, p, t)
    ensures FirstMatch(s, 0, t) == None <==> forall p: nat :: !RegexMatchesAt(s, p, t)
  {
    forall p: nat
      ensures MatchesAt(s, p, t) <==> RegexMatchesAt(s, p, t)
    {
      MatchesAtIffRegex(s, p, t);
    }
  }

  /** The unit tier wins: the leftmost number followed by a unit is returned unscaled. */
  lemma ParseUnitTier(s: string, p: nat)
    requires LeftmostRegexMatch(s, p, UnitTier)
    ensures p < |s| && IsDigit(s[p])
    ensures ParseNormalized(s) == RawValueAt(s, p)
  {
    FirstMatchIsLeftmost(s, UnitTier);
  }

  /** With no unit match, the leftmost number followed by a currency marker is rescaled and rounded. */
  lemma ParseCurrencyTier(s: string, p: nat)
    requires forall q: nat :: !RegexMatchesAt(s, q, UnitTier)
    requires LeftmostRegexMatch(s, p, CurrencyTier)
    ensures p < |s| && IsDigit(s[p])
    ensures ParseNormalized(s) == CurrencyScale(RawValueAt(s, p))
  {
    FirstMatchIsLeftmost(s, UnitTier);
    FirstMatchIsLeftmost(s, CurrencyTier);
  }

  /** With neither marker, the first number is rescaled without rounding. */
  lemma ParseBareTier(s: string, p: nat)
    requires forall q: nat :: !RegexMatchesAt(s, q, UnitTier)
    requires forall q: nat :: !RegexMatchesAt(s, q, CurrencyTier)
    requires p < |s| && IsDigit(s[p])
    requires forall q :: 0 <= q < p ==> !IsDigit(s[q])
    ensures ParseNormalized(s) == BareScale(RawValueAt(s, p))
  {
    FirstMatchIsLeftmost(s, UnitTier);
    FirstMatchIsLeftmost(s, CurrencyTier);
    assert MatchesAt(s, p, BareTier);
  }

  /** Text without a digit parses to zero. */
  lemma {:induction false} ParseWithoutDigit(text: string)
    requires forall i :: 0 <= i < |text| ==> !IsDigit(text[i])
    ensures ParseSalaryToLpa(Some(text)) == 0.0
  {
    var s := Normalize(text);
    assert FirstMatch(s, 0, UnitTier) == None;
    assert FirstMatch(s, 0, CurrencyTier) == None;
    assert FirstMatch(s, 0, BareTier) == None;
  }

  /**
   * Digits over `[p, e)`, white space over `[e, k)` and then a character that
   * is neither: the greedy reading stops exactly there.
   */
  lemma GreedyReadStops(s: string, p: nat, e: nat, k: nat)
    requires p < e <= k < |s|
    requires AllDigits(s, p, e) && AllSpaces(s, e, k)
    requires !IsDigit(s[k]) && s[k] != '.' && !IsSpace(s[k])
    ensures ScanNumeral(s, p) == Numeral(p, e, e)
    ensures SkipSpace(s, e) == k
  {
    DigitRunEndUnique(s, p, e);
    SkipSpaceUnique(s, e, k);
  }

  /** A number running to the end of the text is followed by no marker. */
  lemma NumberAtEndHasNoMarker(s: string, p: nat, t: Tier)
    requires p < |s| && AllDigits(s, p, |s|)
    requires t != BareTier
    ensures !MatchesAt(s, p, t)
  {
    DigitRunEndUnique(s, p, |s|);
    if MarkerAt(s, |s|, t) {
      var m :| m in Markers(t) && IsPrefix(m, s[|s|..]);
      MarkersStartWithSymbol(t, m);
    }
  }

  /** Normalizing works piecewise on a concatenation. */
  lemma NormalizeAppend(a: string, b: string)
    ensures Normalize(a + b) == Normalize(a) + Normalize(b)
  {
    RemoveCharAppend(a, b, ',');
    LowerAppend(RemoveChar(a, ','), RemoveChar(b, ','));
  }

  /** Text without commas and upper-case letters is already normalized. */
  lemma NormalizeFixes(a: string)
    requires ',' !in a && IsLowerCase(a)
    ensures Normalize(a) == a
  {
    RemoveCharAbsent(a, ',');
    LowerFixesLowerCase(a);
  }

  /** A marker spelled in any case normalizes to itself lower-cased. */
  lemma NormalizeMarker(marker: string, t: Tier)
    requires Lower(marker) in Markers(t)
    ensures Normalize(marker) == Lower(marker)
  {
    MarkersStartWithSymbol(t, Lower(marker));
    RemoveCharAbsent(marker, ',');
  }

  /** Digits and white space survive normalization unchanged. */
  lemma NormalizeNumberAndGap(n: nat, gap: string)
    requires forall i :: 0 <= i < |gap| ==> IsSpace(gap[i])
    ensures Normalize(DecimalString(n) + gap) == DecimalString(n) + gap
  {
    NormalizeFixes(DecimalString(n) + gap);
  }

  /** The three parts of a prefix `ds + gap + m`, position by position. */
  lemma PrefixParts(s: string, ds: string, gap: string, m: string)
    requires IsPrefix(ds + gap + m, s)
    ensures |ds| + |gap| + |m| <= |s|
    ensures forall i :: 0 <= i < |ds| ==> s[i] == ds[i]
    ensures forall i :: 0 <= i < |gap| ==> s[|ds| + i] == gap[i]
    ensures forall i :: 0 <= i < |m| ==> s[|ds| + |gap| + i] == m[i]
  {
    var w := ds + gap + m;
    assert forall i :: 0 <= i < |w| ==> s[i] == w[i];
  }

  /** Digits over `[0, e)`, white space over `[e, k)`, then neither: each digit reads up to `e`. */
  lemma ReadsNumberAndGap(s: string, e: nat, k: nat)
    requires 0 < e <= k < |s| && AllDigits(s, 0, e) && AllSpaces(s, e, k)
    requires !IsDigit(s[k]) && s[k] != '.' && !IsSpace(s[k])
    ensures forall q: nat :: q < e ==> ScanNumeral(s, q).end == e && SkipSpace(s, e) == k
  {
    forall q: nat | q < e
      ensures ScanNumeral(s, q).end == e && SkipSpace(s, e) == k
    {
      GreedyReadStops(s, q, e, k);
    }
  }

  /** In normalized text "<digits><spaces><marker>...", the tier of the marker matches at 0. */
  lemma MarkerMatchesAtStart(s: string, ds: string, gap: string, m: string, t: Tier)
    requires |ds| > 0 && forall i :: 0 <= i < |ds| ==> IsDigit(ds[i])
    requires forall i :: 0 <= i < |gap| ==> IsSpace(gap[i])
    requires m in Markers(t) && IsPrefix(ds + gap + m, s)
    ensures |ds| + |gap| < |s| && AllDigits(s, 0, |ds|)
    ensures MatchesAt(s, 0, t)
    ensures RawValueAt(s, 0) == DigitsValue(ds) as real
    ensures forall q: nat :: q < |ds| ==> ScanNumeral(s, q).end == |ds| && SkipSpace(s, |ds|) == |ds| + |gap|
  {
    MarkersStartWithSymbol(t, m);
    PrefixParts(s, ds, gap, m);
    var k := |ds| + |gap|;
    assert AllSpaces(s, |ds|, k) by {
      forall j | |ds| <= j < k ensures IsSpace(s[j]) {
        assert s[|ds| + (j - |ds|)] == gap[j - |ds|];
      }
    }
    assert s[k + 0] == m[0];
    ReadsNumberAndGap(s, |ds|, k);
    assert s[k..][..|m|] == m;
    assert MarkerAt(s, k, t);
    assert s[0..|ds|] == ds;
  }

  /**
   * "32 LPA": a number, optional white space and a unit (in any case) is
   * returned unscaled, whatever follows.
   */
  lemma UnitSuffixRoundTrip(n: nat, gap: string, marker: string, rest: string)
    requires forall i :: 0 <= i < |gap| ==> IsSpace(gap[i])
    requires Lower(marker) in UnitMarkers
    ensures ParseSalaryToLpa(Some(DecimalString(n) + gap + marker + rest)) == n as real
  {
    var ds := DecimalString(n);
    var um := Lower(marker);
    NormalizeAppend(ds + gap + marker, rest);
    NormalizeAppend(ds + gap, marker);
    NormalizeNumberAndGap(n, gap);
    NormalizeMarker(marker, UnitTier);
    var s := Normalize(ds + gap + marker + rest);
    assert s == ds + gap + um + Normalize(rest);
    MarkerMatchesAtStart(s, ds, gap, um, UnitTier);
    assert FirstMatch(s, 0, UnitTier) == Some(0);
    DecimalStringRoundTrip(n);
  }

  /** No marker contains a digit. */
  lemma MarkerHasNoDigit(m: string, t: Tier, i: nat)
    requires m in Markers(t) && i < |m|
    ensures !IsDigit(m[i])
  {
  }

  /** No unit marker starts with the first character of a currency marker. */
  lemma CurrencyIsNoUnit(s: string, k: nat, cm: string)
    requires cm in CurrencyMarkers && k <= |s| && s[k..] == cm
    ensures !MarkerAt(s, k, UnitTier)
  {
    forall m | m in UnitMarkers
      ensures !IsPrefix(m, s[k..])
    {
      assert m[0] == 'l';
      assert cm[0] != 'l';
      assert |s[k..]| > 0 && s[k..][0] == cm[0];
    }
  }

  /** In normalized text "<digits><spaces><currency marker>", no unit pattern matches. */
  lemma NoUnitBeforeCurrency(s: string, ds: string, gap: string, cm: string)
    requires |ds| > 0 && forall i :: 0 <= i < |ds| ==> IsDigit(ds[i])
    requires forall i :: 0 <= i < |gap| ==> IsSpace(gap[i])
    requires cm in CurrencyMarkers && s == ds + gap + cm
    ensures forall q: nat :: !MatchesAt(s, q, UnitTier)
  {
    var k := |ds| + |gap|;
    MarkerMatchesAtStart(s, ds, gap, cm, CurrencyTier);
    assert s[k..] == cm;
    CurrencyIsNoUnit(s, k, cm);
    forall q: nat | |ds| <= q < |s|
      ensures !IsDigit(s[q])
    {
      if q < k {
        assert s[q] == gap[q - |ds|];
      } else {
        assert s[q] == cm[q - k];
        MarkerHasNoDigit(cm, CurrencyTier, q - k);
      }
    }
  }

  /**
   * "1500000 INR": a number, optional white space and a currency marker (in
   * any case) is rescaled by the currency rule.
   */
  lemma CurrencySuffixRoundTrip(n: nat, gap: string, marker: string)
    requires forall i :: 0 <= i < |gap| ==> IsSpace(gap[i])
    requires Lower(marker) in CurrencyMarkers
    ensures ParseSalaryToLpa(Some(DecimalString(n) + gap + marker)) == CurrencyScale(n as real)
  {
    var ds := DecimalString(n);
    var cm := Lower(marker);
    NormalizeAppend(ds + gap, marker);
    NormalizeNumberAndGap(n, gap);
    NormalizeMarker(marker, CurrencyTier);
    var s := Normalize(ds + gap + marker);
    assert s == ds + gap + cm;
    NoUnitBeforeCurrency(s, ds, gap, cm);
    MarkerMatchesAtStart(s, ds, gap, cm, CurrencyTier);
    assert FirstMatch(s, 0, UnitTier) == None;
    assert FirstMatch(s, 0, CurrencyTier) == Some(0);
    DecimalStringRoundTrip(n);
  }

  /**
   * "₹3,200,000": a rupee sign BEFORE the number is no currency marker, so
   * the number falls through to the bare tier and is rescaled unrounded.
   */
  lemma RupeePrefixFallsBack(body: string, n: nat)
    requires Normalize(body) == DecimalString(n)
    ensures ParseSalaryToLpa(Some([Rupee] + body)) == BareScale(n as real)
  {
    var ds := DecimalString(n);
    NormalizeAppend([Rupee], body);
    NormalizeFixes([Rupee]);
    var s := [Rupee] + ds;
    assert forall i :: 1 <= i < |s| ==> s[i] == ds[i - 1];
    assert s[1..] == ds;
    ParseSymbolThenDigits(s);
    DecimalStringRoundTrip(n);
  }

  /** A non-digit and then only digits: only the bare tier matches, at the first digit. */
  lemma ParseSymbolThenDigits(s: string)
    requires 1 < |s| && !IsDigit(s[0]) && AllDigits(s, 1, |s|)
    ensures ParseNormalized(s) == BareScale(DigitsValue(s[1..]) as real)
  {
    forall q: nat, t: Tier | t != BareTier
      ensures !MatchesAt(s, q, t)
    {
      if 1 <= q < |s| {
        NumberAtEndHasNoMarker(s, q, t);
      }
    }
    assert FirstMatch(s, 0, UnitTier) == None;
    assert FirstMatch(s, 0, CurrencyTier) == None;
    DigitRunEndUnique(s, 1, |s|);
    assert ScanNumeral(s, 1) == Numeral(1, |s|, |s|);
    assert FirstMatch(s, 0, BareTier) == Some(1);
    assert s[1..|s|] == s[1..];
  }

  /** Commas are thousands separators only: deleting one does not change the normalized text. */
  lemma NormalizeDropsComma(a: string, b: string)
    ensures Normalize(a + "," + b) == Normalize(a + b)
  {
    RemoveCharSkips(a, b, ',');
  }

  /** "32 LPA" is 32 lakhs. */
  lemma LpaExample()
    ensures ParseSalaryToLpa(Some("32 LPA")) == 32.0
  {
    assert DecimalString(32) + " " + "LPA" + "" == "32 LPA";
    assert Lower("LPA") == "lpa";
    UnitSuffixRoundTrip(32, " ", "LPA", "");
  }

  /** "5 lacs" is 5 lakhs: the unit needs no word boundary. */
  lemma LacsExample()
    ensures ParseSalaryToLpa(Some("5 lacs")) == 5.0
  {
    assert DecimalString(5) + " " + "lac" + "s" == "5 lacs";
    assert Lower("lac") == "lac";
    UnitSuffixRoundTrip(5, " ", "lac", "s");
  }

  /** Two salary texts that normalize alike parse alike. */
  lemma ParseSeesOnlyNormalized(a: string, b: string)
    requires a != "" && b != "" && Normalize(a) == Normalize(b)
    ensures ParseSalaryToLpa(Some(a)) == ParseSalaryToLpa(Some(b))
  {
  }

  /** Two thousands separators, as in "1,500,000", are dropped alike. */
  lemma NormalizeDropsTwoCommas(a: string, b: string, c: string)
    ensures Normalize(a + "," + b + "," + c) == Normalize(a + b + c)
  {
    var comma := [','];
    assert "," == comma;
    RemoveCharSkips(a, b + comma + c, ',');
    RemoveCharSkips(a + b, c, ',');
    assert a + comma + b + comma + c == a + comma + (b + comma + c);
    assert a + (b + comma + c) == a + b + comma + c;
  }

  /** "1,500,000 INR" normalizes as "1500000 INR" does (step of `CurrencyExample`). */
  lemma CommasIn1500000Inr()
    ensures Normalize("1,500,000 INR") == Normalize("1500000 INR")
  {
    var a, b, c := "1", "500", "000 INR";
    NormalizeDropsTwoCommas(a, b, c);
    assert a + "," + b + "," + c == "1,500,000 INR";
    assert a + b + c == "1500000 INR";
  }

  /** "3,200,000" normalizes as "3200000" does (step of `RupeeExample`). */
  lemma CommasIn3200000()
    ensures Normalize("3,200,000") == Normalize("3200000")
  {
    var a, b, c := "3", "200", "000";
    NormalizeDropsTwoCommas(a, b, c);
    assert a + "," + b + "," + c == "3,200,000";
    assert a + b + c == "3200000";
  }

  /** 1500000 renders as "1500000" (step of `CurrencyExample`). */
  lemma RenderCurrencyExample()
    ensures DecimalString(1500000) == "1500000"
  {
    assert DecimalString(15) == "15";
    assert DecimalString(150) == "150";
    assert DecimalString(1500) == "1500";
    assert DecimalString(15000) == "15000";
    assert DecimalString(150000) == "150000";
  }

  /** "INR" lower-cases to the currency marker "inr" (step of `CurrencyExample`). */
  lemma LowerInr()
    ensures Lower("INR") == "inr"
  {
  }

  /** 1500000 rupees rescale to 15.0 lakhs (step of `CurrencyExample`). */
  lemma CurrencyScaleExample()
    ensures CurrencyScale(1500000.0) == 15.0
  {
    assert RoundHalfEven(150.0) == 150;
  }

  /** "1500000 INR" is 15 lakhs by the currency tier (step of `CurrencyExample`). */
  lemma CurrencyExampleNoCommas()
    ensures ParseSalaryToLpa(Some("1500000 INR")) == 15.0
  {
    RenderCurrencyExample();
    assert "1500000" + " " + "INR" == "1500000 INR";
    LowerInr();
    CurrencySuffixRoundTrip(1500000, " ", "INR");
    CurrencyScaleExample();
  }

  /** "1,500,000 INR" is 15 lakhs by the currency tier. */
  lemma CurrencyExample()
    ensures ParseSalaryToLpa(Some("1,500,000 INR")) == 15.0
  {
    CommasIn1500000Inr();
    ParseSeesOnlyNormalized("1,500,000 INR", "1500000 INR");
    CurrencyExampleNoCommas();
  }

  /** "3200000" is already normalized (step of `RupeeExample`). */
  lemma PlainDigitsExample()
    ensures Normalize("3200000") == "3200000"
  {
    NormalizeFixes("3200000");
  }

  /** 3200000 renders as "3200000" (step of `RupeeExample`). */
  lemma RenderExample()
    ensures DecimalString(3200000) == "3200000"
  {
    assert DecimalString(32) == "32";
    assert DecimalString(320) == "320";
    assert DecimalString(3200) == "3200";
    assert DecimalString(32000) == "32000";
    assert DecimalString(320000) == "320000";
  }

  /** "₹3,200,000" takes the fallback tier's rescaling of 3200000 (step of `RupeeExample`). */
  lemma RupeeExampleUnscaled()
    ensures ParseSalaryToLpa(Some([Rupee] + "3,200,000")) == BareScale(3200000 as real)
  {
    CommasIn3200000();
    PlainDigitsExample();
    RenderExample();
    RupeePrefixFallsBack("3,200,000", 3200000);
  }

  /** "₹3,200,000" is 32 lakhs by the fallback tier. */
  lemma RupeeExample()
    ensures ParseSalaryToLpa(Some([Rupee] + "3,200,000")) == 32.0
  {
    RupeeExampleUnscaled();
  }

  /** In "12.5 lpa" the unit pattern matches at 0 with the numeral "12.5". */
  lemma FractionExampleMatch()
    ensures ScanNumeral("12.5 lpa", 0) == Numeral(0, 2, 4)
    ensures FirstMatch("12.5 lpa", 0, UnitTier) == Some(0)
  {
    var s := "12.5 lpa";
    DigitRunEndUnique(s, 0, 2);
    DigitRunEndUnique(s, 3, 4);
    SkipSpaceUnique(s, 4, 5);
    assert s[5..][..3] == "lpa";
    assert "lpa" in Markers(UnitTier) && IsPrefix("lpa", s[5..]);
    assert MatchesAt(s, 0, UnitTier);
  }

  /** The numeral "12.5" is worth 12.5. */
  lemma FractionExampleValue()
    ensures ScanNumeral("12.5 lpa", 0) == Numeral(0, 2, 4) ==> RawValueAt("12.5 lpa", 0) == 12.5
  {
    var s := "12.5 lpa";
    assert s[0..2] == "12" && s[3..4] == "5";
    assert DigitsValue("1") == 1;
    assert DigitsValue("12") == 10 * DigitsValue("1") + 2;
    assert DigitsValue("5") == 5;
  }

  /** "12.5 lpa" is 12.5 lakhs: the fraction is read with its point. */
  lemma FractionExample()
    ensures ParseNormalized("12.5 lpa") == 12.5
  {
    FractionExampleMatch();
    FractionExampleValue();
  }

  /** Empty, missing and digit-free salary text is 0. */
  lemma ZeroExamples()
    ensures ParseSalaryToLpa(Some("")) == 0.0
    ensures ParseSalaryToLpa(None) == 0.0
    ensures ParseSalaryToLpa(Some("negotiable")) == 0.0
  {
    ParseWithoutDigit("negotiable");
  }
}
