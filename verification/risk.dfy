/**
 * The mock risk evaluator `computeRiskScore` of docs/script.js: a base of 10,
 * an age-band addend, two case-insensitive keyword addends on the medical
 * history, an upper clamp at 95, and a label and colour read off the score.
 */
module Risk {
  import opened Wrappers
  import opened Text

  /** A record of the dataset. `medicalHistory` is `None` when the field is
      missing or null. */
  datatype Patient = Patient(
    nic: string,
    name: string,
    dob: string,
    age: int,
    gender: string,
    contact: string,
    medicalHistory: Option<string>)

  /** The three labels, from least to most severe. */
  datatype RiskLabel = Normal | Attention | Urgent

  datatype RiskResult = RiskResult(score: int, level: RiskLabel, color: string, explanation: string)

  /** The label as the script spells it. */
  function LabelText(l: RiskLabel): (t: string)
    ensures t in {"Normal", "Attention", "Urgent"}
  {
    match l
    case Normal => "Normal"
    case Attention => "Attention"
    case Urgent => "Urgent"
  }

  /** Display colour of a label: green, amber, red, each a `#rrggbb` token. */
  function ColorOf(l: RiskLabel): (c: string)
    ensures |c| == 7 && c[0] == '#'
    ensures forall k :: 1 <= k < 7 ==> c[k] in "0123456789abcdef"
  {
    match l
    case Normal => "#10b981"
    case Attention => "#f59e0b"
    case Urgent => "#ef4444"
  }

  function Severity(l: RiskLabel): nat {
    match l
    case Normal => 0
    case Attention => 1
    case Urgent => 2
  }

  /** Distinct labels get distinct colours and distinct spellings. */
  lemma ColorAndTextAreInjective(l: RiskLabel, m: RiskLabel)
    ensures ColorOf(l) == ColorOf(m) <==> l == m
    ensures LabelText(l) == LabelText(m) <==> l == m
  {
  }

  /** Score added for the age band; the band boundaries 30, 40 and 50 belong to the higher band. */
  function AgeAddend(age: int): (a: int)
    ensures a == 30 <==> 50 <= age
    ensures a == 20 <==> 40 <= age < 50
    ensures a == 10 <==> 30 <= age < 40
    ensures a == 0 <==> age < 30
  {
    if age >= 50 then 30 else if age >= 40 then 20 else if age >= 30 then 10 else 0
  }

  /** `p.medical_history || ''`: a missing history reads as the empty string. */
  function HistoryText(h: Option<string>): string {
    match h
    case None => ""
    case Some(t) => t
  }

  const Diabetes := "diabetes"
  const Hypertension := "hypertension"

  /** Score added for the medical history: 30 if its lowercase form contains
      "diabetes" and, independently, 20 if it contains "hypertension". */
  function HistoryAddend(h: Option<string>): (a: int)
    ensures a in {0, 20, 30, 50}
  {
    var history := ToLower(HistoryText(h));
    (if Contains(history, Diabetes) then 30 else 0) + (if Contains(history, Hypertension) then 20 else 0)
  }

  /** The score of a patient: base 10 plus both addends. It is a multiple of 10
      between 10 and 90, so the clamp at 95 never changes it. */
  function Score(p: Patient): (s: int)
    ensures 10 <= s <= 90 && s % 10 == 0
  {
    10 + AgeAddend(p.age) + HistoryAddend(p.medicalHistory)
  }

  /** The label of a score: 70 and above is urgent, 40 and above needs attention. */
  function LabelFor(score: int): (l: RiskLabel)
    ensures l == Urgent <==> score >= 70
    ensures l == Attention <==> 40 <= score < 70
    ensures l == Normal <==> score < 40
  {
    if score >= 70 then Urgent else if score >= 40 then Attention else Normal
  }

  const ExplanationPrefix := "Simple rule-based demo score ("
  const ExplanationSuffix := "%)"

  /** The explanation text, with the score printed in decimal. */
  function Explanation(score: nat): string {
    ExplanationPrefix + NatToString(score) + ExplanationSuffix
  }

  /** Reads the score back out of an explanation text, if it has that form. */
  function ScoreInExplanation(e: string): Option<nat> {
    var lo, hi := |ExplanationPrefix|, |e| - |ExplanationSuffix|;
    if lo < hi && e[..lo] == ExplanationPrefix && e[hi..] == ExplanationSuffix
       && forall k :: lo <= k < hi ==> IsDigit(e[k])
    then Some(DigitsValue(e[lo..hi]))
    else None
  }

  /** The explanation embeds exactly the score it was built from. */
  lemma ExplanationEmbedsScore(score: nat)
    ensures ScoreInExplanation(Explanation(score)) == Some(score)
  {
    var digits := NatToString(score);
    var e := Explanation(score);
    var lo, hi := |ExplanationPrefix|, |e| - |ExplanationSuffix|;
    assert e[..lo] == ExplanationPrefix;
    assert e[hi..] == ExplanationSuffix;
    assert e[lo..hi] == digits;
    NatToStringRoundTrip(score);
  }

  /**
   * `computeRiskScore`, step by step as the script does it: `score` is built
   * up by successive additions and then clamped, `label` and `color` start at
   * "Normal"/green and are overwritten. The result's score is the patient's
   * score (the clamp is dead), its label is the one the score calls for, its
   * colour is that label's, and its explanation reads back as the same score.
   */
  method ComputeRiskScore(p: Patient) returns (r: RiskResult)
    ensures r.score == Score(p)
    ensures 10 <= r.score <= 90 && r.score % 10 == 0
    ensures r.level == LabelFor(r.score) && r.color == ColorOf(r.level)
    ensures r.explanation == Explanation(r.score)
    ensures ScoreInExplanation(r.explanation) == Some(r.score)
  {
    var score := 10;
    if p.age >= 50 {
      score := score + 30;
    } else if p.age >= 40 {
      score := score + 20;
    } else if p.age >= 30 {
      score := score + 10;
    }

    var history := ToLower(HistoryText(p.medicalHistory));
    if Contains(history, Diabetes) {
      score := score + 30;
    }
    if Contains(history, Hypertension) {
      score := score + 20;
    }

    if score > 95 {
      score := 95;
    }

    var level, color := Normal, "#10b981";
    if score >= 70 {
      level, color := Urgent, "#ef4444";
    } else if score >= 40 {
      level, color := Attention, "#f59e0b";
    }
    ExplanationEmbedsScore(score);
    r := RiskResult(score, level, color, Explanation(score));
  }

  /** With the history fixed, an older patient never scores lower. */
  lemma ScoreMonotoneInAge(p: Patient, q: Patient)
    requires p.medicalHistory == q.medicalHistory && p.age <= q.age
    ensures Score(p) <= Score(q)
  {
  }

  /** A higher score never gets a less severe label. */
  lemma LabelMonotone(s: int, t: int)
    requires s <= t
    ensures Severity(LabelFor(s)) <= Severity(LabelFor(t))
  {
  }

  /** The keyword search ignores letter case: histories that lowercase alike add alike,
      and a history adds the same as its lowercase form. */
  lemma HistoryIgnoresCase(h: string, g: string)
    requires ToLower(h) == ToLower(g)
    ensures HistoryAddend(Some(h)) == HistoryAddend(Some(g))
    ensures HistoryAddend(Some(h)) == HistoryAddend(Some(ToLower(h)))
  {
    ToLowerIdempotent(h);
  }

  /** A missing or empty history adds nothing. */
  lemma EmptyHistoryAddsNothing(h: Option<string>)
    requires h == None || h == Some("")
    ensures HistoryAddend(h) == 0
  {
    EmptyContainsNothing(Diabetes);
    EmptyContainsNothing(Hypertension);
  }

  /** The history addend in terms of where the keywords occur in the lowercased
      history: 30 exactly when "diabetes" occurs somewhere, plus 20 exactly when
      "hypertension" occurs somewhere, the two independently of each other. */
  lemma HistoryAddendByOccurrence(h: Option<string>)
    ensures var lower := ToLower(HistoryText(h));
      HistoryAddend(h) == (if exists i :: OccursAt(lower, Diabetes, i) then 30 else 0)
                        + (if exists j :: OccursAt(lower, Hypertension, j) then 20 else 0)
  {
    ContainsIffOccurs(ToLower(HistoryText(h)), Diabetes);
    ContainsIffOccurs(ToLower(HistoryText(h)), Hypertension);
  }

  /** A 55-year-old with "Diabetes, Hypertension" scores 10 + 30 + 30 + 20 = 90: urgent, red. */
  lemma ScenarioOlderDiabeticHypertensive(p: Patient)
    requires p.age == 55 && p.medicalHistory == Some("Diabetes, Hypertension")
    ensures Score(p) == 90 && LabelFor(Score(p)) == Urgent && ColorOf(Urgent) == "#ef4444"
  {
    var h := ToLower("Diabetes, Hypertension");
    assert OccursAt(h, Diabetes, 0) && OccursAt(h, Hypertension, 10);
    ContainsIffOccurs(h, Diabetes);
    ContainsIffOccurs(h, Hypertension);
  }

  /** A 25-year-old with an empty history keeps the base score 10: normal, green. */
  lemma ScenarioYoungHealthy(p: Patient)
    requires p.age == 25 && p.medicalHistory == Some("")
    ensures Score(p) == 10 && LabelFor(Score(p)) == Normal && ColorOf(Normal) == "#10b981"
  {
    EmptyHistoryAddsNothing(p.medicalHistory);
  }

  /** A 45-year-old with "Hypertension" scores 10 + 20 + 20 = 50: attention, amber. */
  lemma ScenarioMiddleAgedHypertensive(p: Patient)
    requires p.age == 45 && p.medicalHistory == Some("Hypertension")
    ensures Score(p) == 50 && LabelFor(Score(p)) == Attention && ColorOf(Attention) == "#f59e0b"
  {
    var h := ToLower("Hypertension");
    assert OccursAt(h, Hypertension, 0);
    ContainsIffOccurs(h, Hypertension);
    AbsentFirstCharMeansAbsent(h, Diabetes);
  }
}
