/**
 * Whether a doctor's specialization suits a (lower-cased) medication or
 * illness text.  `IsDoctorSuitable` follows the source's chain of four
 * early-return checks; `Rules` is the same knowledge written as a table of
 * keyword/specialization pairs, and the lemmas tie the two together.
 */
module Suitability {

  import opened JavaText

  const GeneralPractitioner := "General Practitioner"
  const Dermatologist := "Dermatologist"
  const Cardiologist := "Cardiologist"

  /** `isDoctorSuitable`: each triggered check demands its specialization, ignoring case. */
  predicate IsDoctorSuitable(specialization: string, medication: string)
  {
    if Contains(medication, "headache") && !EqualsIgnoreCase(specialization, GeneralPractitioner) then false
    else if Contains(medication, "skin") && !EqualsIgnoreCase(specialization, Dermatologist) then false
    else if (Contains(medication, "heart") || Contains(medication, "chest"))
      && !EqualsIgnoreCase(specialization, Cardiologist) then false
    else if (Contains(medication, "cough") || Contains(medication, "flu") || Contains(medication, "cold"))
      && !EqualsIgnoreCase(specialization, GeneralPractitioner) then false
    else true
  }

  /** One line of the rule table: a trigger word and the specialization it requires. */
  datatype Rule = Rule(keyword: string, specialization: string)

  /** The rule table, one row per trigger word. */
  const Rules: seq<Rule> := [
    Rule("headache", GeneralPractitioner),
    Rule("skin", Dermatologist),
    Rule("heart", Cardiologist),
    Rule("chest", Cardiologist),
    Rule("cough", GeneralPractitioner),
    Rule("flu", GeneralPractitioner),
    Rule("cold", GeneralPractitioner)
  ]

  /** Rule `k` fires on `medication`. */
  predicate Triggers(medication: string, k: int)
  {
    0 <= k < |Rules| && Contains(medication, Rules[k].keyword)
  }

  /** Every fired rule is met by `specialization`. */
  predicate MeetsTriggeredRules(specialization: string, medication: string)
  {
    forall k :: 0 <= k < |Rules| && Triggers(medication, k) ==> EqualsIgnoreCase(specialization, Rules[k].specialization)
  }

  /** The specializations demanded by the rules that fire on `medication`. */
  function Required(medication: string): set<string>
  {
    set k | 0 <= k < |Rules| && Triggers(medication, k) :: Rules[k].specialization
  }

  /** The chain of checks accepts exactly when every fired rule is met. */
  lemma SuitableIffEveryTriggeredRuleMet(specialization: string, medication: string)
    ensures IsDoctorSuitable(specialization, medication) <==> MeetsTriggeredRules(specialization, medication)
  {
    var s, m := specialization, medication;
    assert MeetsTriggeredRules(s, m) <==>
      (Triggers(m, 0) ==> EqualsIgnoreCase(s, Rules[0].specialization)) &&
      (Triggers(m, 1) ==> EqualsIgnoreCase(s, Rules[1].specialization)) &&
      (Triggers(m, 2) ==> EqualsIgnoreCase(s, Rules[2].specialization)) &&
      (Triggers(m, 3) ==> EqualsIgnoreCase(s, Rules[3].specialization)) &&
      (Triggers(m, 4) ==> EqualsIgnoreCase(s, Rules[4].specialization)) &&
      (Triggers(m, 5) ==> EqualsIgnoreCase(s, Rules[5].specialization)) &&
      (Triggers(m, 6) ==> EqualsIgnoreCase(s, Rules[6].specialization));
  }

  /** The same statement over the set of required specializations. */
  lemma SuitableIffMeetsRequired(specialization: string, medication: string)
    ensures IsDoctorSuitable(specialization, medication)
        <==> forall x :: x in Required(medication) ==> EqualsIgnoreCase(specialization, x)
  {
    SuitableIffEveryTriggeredRuleMet(specialization, medication);
  }

  /** A medication mentioning "headache" suits General Practitioners only. */
  lemma HeadacheNeedsGeneralPractitioner(specialization: string, medication: string)
    requires Contains(medication, "headache")
    ensures IsDoctorSuitable(specialization, medication) ==> EqualsIgnoreCase(specialization, GeneralPractitioner)
  {
  }

  /** A medication mentioning "cough", "flu" or "cold" suits General Practitioners only. */
  lemma RespiratoryNeedsGeneralPractitioner(specialization: string, medication: string)
    requires Contains(medication, "cough") || Contains(medication, "flu") || Contains(medication, "cold")
    ensures IsDoctorSuitable(specialization, medication) ==> EqualsIgnoreCase(specialization, GeneralPractitioner)
  {
  }

  /** A medication mentioning "skin" suits Dermatologists only. */
  lemma SkinNeedsDermatologist(specialization: string, medication: string)
    requires Contains(medication, "skin")
    ensures IsDoctorSuitable(specialization, medication) ==> EqualsIgnoreCase(specialization, Dermatologist)
  {
  }

  /** A medication mentioning "heart" or "chest" suits Cardiologists only. */
  lemma HeartNeedsCardiologist(specialization: string, medication: string)
    requires Contains(medication, "heart") || Contains(medication, "chest")
    ensures IsDoctorSuitable(specialization, medication) ==> EqualsIgnoreCase(specialization, Cardiologist)
  {
  }

  /**
   * Every specialization suits a medication exactly when no trigger word
   * occurs in it.
   */
  lemma AllSuitableIffNoTrigger(medication: string)
    ensures (forall s :: IsDoctorSuitable(s, medication)) <==> (forall k :: !Triggers(medication, k))
  {
    if forall s :: IsDoctorSuitable(s, medication) {
      SuitableIffEveryTriggeredRuleMet("", medication);
    } else {
      var s :| !IsDoctorSuitable(s, medication);
      SuitableIffEveryTriggeredRuleMet(s, medication);
    }
  }

  /** The three specializations of the table are distinct even ignoring case. */
  lemma RuleSpecializationsDiffer(i: int, j: int)
    requires 0 <= i < |Rules| && 0 <= j < |Rules|
    ensures EqualsIgnoreCase(Rules[i].specialization, Rules[j].specialization)
        <==> Rules[i].specialization == Rules[j].specialization
  {
    EqualsIgnoreCaseEquivalence(Rules[i].specialization, Rules[i].specialization, Rules[i].specialization);
  }

  /**
   * When two fired rules demand different specializations, no
   * specialization at all suits the medication.
   */
  lemma ConflictingRulesExcludeEveryone(specialization: string, medication: string, i: int, j: int)
    requires Triggers(medication, i) && Triggers(medication, j)
    requires Rules[i].specialization != Rules[j].specialization
    ensures !IsDoctorSuitable(specialization, medication)
  {
    SuitableIffEveryTriggeredRuleMet(specialization, medication);
    RuleSpecializationsDiffer(i, j);
    EqualsIgnoreCaseEquivalence(Rules[i].specialization, specialization, Rules[j].specialization);
  }

  /** For example, "skin" together with "chest" suits nobody. */
  lemma SkinAndChestExcludeEveryone(specialization: string, medication: string)
    requires Contains(medication, "skin") && Contains(medication, "chest")
    ensures !IsDoctorSuitable(specialization, medication)
  {
    ConflictingRulesExcludeEveryone(specialization, medication, 1, 3);
  }

  /** Only the specialization's spelling up to case matters. */
  lemma SuitabilityIgnoresCase(s1: string, s2: string, medication: string)
    requires EqualsIgnoreCase(s1, s2)
    ensures IsDoctorSuitable(s1, medication) <==> IsDoctorSuitable(s2, medication)
  {
    EqualsIgnoreCaseIffLowerEqual(s1, s2);
    EqualsIgnoreCaseIffLowerEqual(s1, GeneralPractitioner);
    EqualsIgnoreCaseIffLowerEqual(s2, GeneralPractitioner);
    EqualsIgnoreCaseIffLowerEqual(s1, Dermatologist);
    EqualsIgnoreCaseIffLowerEqual(s2, Dermatologist);
    EqualsIgnoreCaseIffLowerEqual(s1, Cardiologist);
    EqualsIgnoreCaseIffLowerEqual(s2, Cardiologist);
  }

  /** Adding text to a medication can only remove suitable specializations. */
  lemma LongerMedicationNoMoreSuitable(specialization: string, a: string, b: string)
    ensures IsDoctorSuitable(specialization, a + b) ==> IsDoctorSuitable(specialization, a)
    ensures IsDoctorSuitable(specialization, a + b) ==> IsDoctorSuitable(specialization, b)
  {
    forall k | 0 <= k < |Rules|
      ensures (Triggers(a, k) || Triggers(b, k)) ==> Triggers(a + b, k)
    {
      ContainsInConcat(a, b, Rules[k].keyword);
    }
    SuitableIffEveryTriggeredRuleMet(specialization, a);
    SuitableIffEveryTriggeredRuleMet(specialization, b);
    SuitableIffEveryTriggeredRuleMet(specialization, a + b);
  }

  /** When "heart" and "chest" are the only trigger words present, Cardiologists are suitable. */
  lemma CardiacOnlySuitsCardiologist(medication: string)
    requires !Contains(medication, "headache") && !Contains(medication, "skin")
    requires !Contains(medication, "cough") && !Contains(medication, "flu") && !Contains(medication, "cold")
    ensures IsDoctorSuitable(Cardiologist, medication)
  {
    EqualsIgnoreCaseEquivalence(Cardiologist, Cardiologist, Cardiologist);
  }
}
