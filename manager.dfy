/**
 * The prescription manager's non-visual state and its submit action: the
 * doctor registry, the recorded prescriptions, the text of the two input
 * fields and the text of the output area.  `Submission` is the submit
 * action on a value of that state; the class `PrescriptionManager` holds
 * the same state in fields and its methods are proved to follow it.
 */
module Manager {

  import opened JavaText
  import opened Records
  import opened Suitability

  /** The three doctors `initDoctors` registers, in combo-box order; all are available. */
  function Registry(): seq<Doctor>
  {
    [ Doctor("Bob Johnson", Dermatologist, true),
      Doctor("Alice Smith", Cardiologist, true),
      Doctor("Cathy Lee", GeneralPractitioner, true) ]
  }

  /** The form's state: registry, recorded prescriptions, field texts and output text. */
  datatype ManagerState = ManagerState(
    doctors: seq<Doctor>,
    prescriptions: seq<Prescription>,
    patientText: string,
    medicationText: string,
    output: string)

  /** How one press of the submit button ended: the dialog that stopped it, or a commit. */
  datatype Outcome =
    | DoctorUnavailable
    | MissingInput
    | OverrideDeclined
    | Submitted(overridden: bool)

  /** How the combo box shows the second registry entry. */
  lemma CardiologistEntryShown()
    ensures Registry()[1].DisplayName() == "Dr. Alice Smith (Cardiologist)"
  {
  }

  /** How the combo box shows the third registry entry. */
  lemma GeneralPractitionerEntryShown()
    ensures Registry()[2].DisplayName() == "Dr. Cathy Lee (General Practitioner)"
  {
  }

  /**
   * Every registered doctor is available, so with the registry the
   * availability gate never stops a submission.
   */
  lemma RegistryNeverUnavailable(s: ManagerState, index: nat, confirm: bool)
    requires s.doctors == Registry() && index < |s.doctors|
    ensures s.doctors[index].isAvailable
    ensures Submission(s, index, confirm).0 != DoctorUnavailable
  {
  }

  /** The record a successful submission would create from the current field texts. */
  function Draft(s: ManagerState, index: nat): Prescription
    requires index < |s.doctors|
  {
    Prescription(Trim(s.patientText), ToLower(Trim(s.medicationText)), s.doctors[index].DisplayName())
  }

  /**
   * `submitPrescription` with doctor `index` selected; `confirm` is the
   * answer to the override question (true for YES), consulted only when the
   * pairing is unsuitable.  Every abort returns the state unchanged.
   */
  function Submission(s: ManagerState, index: nat, confirm: bool): (r: (Outcome, ManagerState))
    requires index < |s.doctors|
    ensures r.0 == DoctorUnavailable <==> !s.doctors[index].isAvailable
    ensures r.0 == MissingInput <==>
      s.doctors[index].isAvailable && (Trim(s.patientText) == [] || Trim(s.medicationText) == [])
    ensures !r.0.Submitted? ==> r.1 == s
    ensures r.0.Submitted? ==> r.1 == s.(
      prescriptions := s.prescriptions + [Draft(s, index)],
      patientText := "",
      medicationText := "",
      output := s.output + LogLine(Draft(s, index)))
  {
    var doctor := s.doctors[index];
    if !doctor.isAvailable then (DoctorUnavailable, s)
    else
      var patientName := Trim(s.patientText);
      var medication := ToLower(Trim(s.medicationText));
      if patientName == [] || medication == [] then (MissingInput, s)
      else
        var suitable := IsDoctorSuitable(doctor.specialization, medication);
        if !suitable && !confirm then (OverrideDeclined, s)
        else
          var p := Prescription(patientName, medication, doctor.DisplayName());
          (Submitted(!suitable),
           s.(prescriptions := s.prescriptions + [p],
              patientText := "",
              medicationText := "",
              output := s.output + LogLine(p)))
  }

  /**
   * The suitability gate: a submission that passed the first two gates
   * commits when the pairing is suitable or the override is confirmed, and
   * reports whether the override was needed.
   */
  lemma SubmissionGates(s: ManagerState, index: nat, confirm: bool)
    requires index < |s.doctors|
    ensures Submission(s, index, confirm).0.Submitted? <==>
      s.doctors[index].isAvailable && Trim(s.patientText) != [] && Trim(s.medicationText) != []
      && (IsDoctorSuitable(s.doctors[index].specialization, Draft(s, index).medication) || confirm)
    ensures Submission(s, index, confirm).0.Submitted? ==> Submission(s, index, confirm).0.overridden == !IsDoctorSuitable(s.doctors[index].specialization, Draft(s, index).medication)
  {
  }

  /**
   * A suitable pairing with both fields filled commits whatever the answer
   * to the override question would have been: the question is not asked.
   */
  lemma SuitablePairingCommits(s: ManagerState, index: nat, confirm: bool)
    requires index < |s.doctors| && s.doctors[index].isAvailable
    requires Trim(s.patientText) != [] && Trim(s.medicationText) != []
    requires IsDoctorSuitable(s.doctors[index].specialization, Draft(s, index).medication)
    ensures Submission(s, index, confirm) == (Submitted(false), s.(
      prescriptions := s.prescriptions + [Draft(s, index)],
      patientText := "",
      medicationText := "",
      output := s.output + LogLine(Draft(s, index))))
  {
    SubmissionGates(s, index, confirm);
  }

  /**
   * What every recorded prescription satisfies: a trimmed patient name, a
   * trimmed lower-case medication and the display name of an available
   * registered doctor.
   */
  ghost predicate RecordOk(p: Prescription, doctors: seq<Doctor>)
  {
    && p.patientName != [] && Trim(p.patientName) == p.patientName
    && p.medication != [] && Trim(p.medication) == p.medication && ToLower(p.medication) == p.medication
    && exists d :: d in doctors && d.isAvailable && p.prescribedBy == d.DisplayName()
  }

  /**
   * What every reachable state satisfies: the output area is the transcript
   * of the prescriptions, and every prescription is a sound record.
   */
  ghost predicate WellFormed(s: ManagerState)
  {
    && s.output == Transcript(s.prescriptions)
    && forall p :: p in s.prescriptions ==> RecordOk(p, s.doctors)
  }

  /** The record a submission commits is sound. */
  lemma DraftRecordOk(s: ManagerState, index: nat, confirm: bool)
    requires index < |s.doctors|
    requires Submission(s, index, confirm).0.Submitted?
    ensures RecordOk(Draft(s, index), s.doctors)
  {
    TrimIdempotent(s.patientText);
    TrimIdempotent(s.medicationText);
    ToLowerKeepsTrimmed(Trim(s.medicationText));
    ToLowerIdempotent(Trim(s.medicationText));
    assert s.doctors[index] in s.doctors;
  }

  /** A submission keeps the state well formed. */
  lemma SubmissionKeepsWellFormed(s: ManagerState, index: nat, confirm: bool)
    requires index < |s.doctors| && WellFormed(s)
    ensures WellFormed(Submission(s, index, confirm).1)
  {
    if Submission(s, index, confirm).0.Submitted? {
      var p := Draft(s, index);
      TranscriptAppend(s.prescriptions, p);
      DraftRecordOk(s, index, confirm);
    }
  }

  // ------------------------------------------------------- runs of events

  /** A user action on the form. */
  datatype Event =
    | PatientTyped(patient: string)
    | MedicationTyped(medication: string)
    | SubmitPressed(index: nat, confirm: bool)

  /** Every submit event selects a registered doctor. */
  predicate Selectable(doctors: seq<Doctor>, events: seq<Event>)
  {
    forall k :: 0 <= k < |events| && events[k].SubmitPressed? ==> events[k].index < |doctors|
  }

  /** The effect of one event. */
  function Step(s: ManagerState, e: Event): (r: ManagerState)
    requires e.SubmitPressed? ==> e.index < |s.doctors|
    ensures r.doctors == s.doctors
  {
    match e
    case PatientTyped(text) => s.(patientText := text)
    case MedicationTyped(text) => s.(medicationText := text)
    case SubmitPressed(index, confirm) => Submission(s, index, confirm).1
  }

  /** The effect of a sequence of events, first to last. */
  function Run(s: ManagerState, events: seq<Event>): (r: ManagerState)
    requires Selectable(s.doctors, events)
    ensures r.doctors == s.doctors
    decreases |events|
  {
    if events == [] then s
    else Run(Step(s, events[0]), events[1..])
  }

  /**
   * The record and the output are append-only: whatever happens, earlier
   * prescriptions and earlier output stay as they were.
   */
  lemma {:induction false} RunIsAppendOnly(s: ManagerState, events: seq<Event>)
    requires Selectable(s.doctors, events)
    ensures s.prescriptions <= Run(s, events).prescriptions
    ensures s.output <= Run(s, events).output
    decreases |events|
  {
    if events != [] {
      var t := Step(s, events[0]);
      assert Selectable(t.doctors, events[1..]) by {
        forall k | 0 <= k < |events[1..]| && events[1..][k].SubmitPressed?
          ensures events[1..][k].index < |t.doctors|
        {
          assert events[1..][k] == events[k + 1];
        }
      }
      RunIsAppendOnly(t, events[1..]);
    }
  }

  /** Any run from a well-formed state ends well formed. */
  lemma {:induction false} RunKeepsWellFormed(s: ManagerState, events: seq<Event>)
    requires Selectable(s.doctors, events) && WellFormed(s)
    ensures WellFormed(Run(s, events))
    decreases |events|
  {
    if events != [] {
      var e := events[0];
      if e.SubmitPressed? {
        SubmissionKeepsWellFormed(s, e.index, e.confirm);
      }
      var t := Step(s, e);
      assert Selectable(t.doctors, events[1..]) by {
        forall k | 0 <= k < |events[1..]| && events[1..][k].SubmitPressed?
          ensures events[1..][k].index < |t.doctors|
        {
          assert events[1..][k] == events[k + 1];
        }
      }
      RunKeepsWellFormed(t, events[1..]);
    }
  }

  /** Running two event sequences one after the other is running their concatenation. */
  lemma {:induction false} RunConcat(s: ManagerState, a: seq<Event>, b: seq<Event>)
    requires Selectable(s.doctors, a + b)
    ensures Selectable(s.doctors, a) && Selectable(Run(s, a).doctors, b)
    ensures Run(s, a + b) == Run(Run(s, a), b)
    decreases |a|
  {
    assert forall k :: 0 <= k < |a| ==> (a + b)[k] == a[k];
    assert forall k :: 0 <= k < |b| ==> (a + b)[|a| + k] == b[k];
    if a != [] {
      assert (a + b)[1..] == a[1..] + b;
      var t := Step(s, a[0]);
      assert Selectable(t.doctors, a[1..] + b) by {
        forall k | 0 <= k < |a[1..] + b| && (a[1..] + b)[k].SubmitPressed?
          ensures (a[1..] + b)[k].index < |t.doctors|
        {
          assert (a[1..] + b)[k] == (a + b)[k + 1];
        }
      }
      RunConcat(t, a[1..], b);
    } else {
      assert a + b == b;
    }
  }

  /** Typing both fields and pressing submit: the events of one attempt. */
  function Attempt(patient: string, medication: string, index: nat, confirm: bool): seq<Event>
  {
    [PatientTyped(patient), MedicationTyped(medication), SubmitPressed(index, confirm)]
  }

  /** One attempt is the submission on the retyped state. */
  lemma AttemptIsSubmission(s: ManagerState, patient: string, medication: string, index: nat, confirm: bool)
    requires index < |s.doctors|
    ensures Selectable(s.doctors, Attempt(patient, medication, index, confirm))
    ensures Run(s, Attempt(patient, medication, index, confirm))
      == Submission(s.(patientText := patient, medicationText := medication), index, confirm).1
  {
    var s1 := s.(patientText := patient);
    var s2 := s1.(medicationText := medication);
    var last := [SubmitPressed(index, confirm)];
    var r := Submission(s2, index, confirm).1;
    assert Run(s2, last) == r by {
      assert Step(s2, last[0]) == r;
      assert last[1..] == [];
    }
    var middle := [MedicationTyped(medication)] + last;
    assert Run(s1, middle) == r by {
      assert Step(s1, middle[0]) == s2;
      assert middle[1..] == last;
    }
    var events := [PatientTyped(patient)] + middle;
    assert events == Attempt(patient, medication, index, confirm);
    assert Run(s, events) == r by {
      assert Step(s, events[0]) == s1;
      assert events[1..] == middle;
    }
    assert s2 == s.(patientText := patient, medicationText := medication);
  }

  /**
   * Only the registry and the two field texts decide how a submission ends;
   * the history recorded so far plays no part (there is no deduplication).
   */
  lemma OutcomeIgnoresHistory(s: ManagerState, t: ManagerState, index: nat, confirm: bool)
    requires index < |s.doctors|
    requires s.doctors == t.doctors && s.patientText == t.patientText && s.medicationText == t.medicationText
    ensures Submission(s, index, confirm).0 == Submission(t, index, confirm).0
    ensures Draft(s, index) == Draft(t, index)
  {
  }

  /** One committing attempt adds its record and its output line, and nothing else of either. */
  lemma AttemptCommits(s: ManagerState, patient: string, medication: string, index: nat, confirm: bool)
    requires index < |s.doctors|
    requires Submission(s.(patientText := patient, medicationText := medication), index, confirm).0.Submitted?
    ensures var once := Attempt(patient, medication, index, confirm);
      var p := Draft(s.(patientText := patient, medicationText := medication), index);
      Selectable(s.doctors, once)
      && Run(s, once).doctors == s.doctors
      && Run(s, once).prescriptions == s.prescriptions + [p]
      && Run(s, once).output == s.output + LogLine(p)
  {
    AttemptIsSubmission(s, patient, medication, index, confirm);
  }

  /** Two attempts in a row, each run on the state the previous one left. */
  lemma AttemptTwice(s: ManagerState, patient: string, medication: string, index: nat, confirm: bool)
    requires index < |s.doctors|
    requires Submission(s.(patientText := patient, medicationText := medication), index, confirm).0.Submitted?
    ensures var once := Attempt(patient, medication, index, confirm);
      var p := Draft(s.(patientText := patient, medicationText := medication), index);
      Selectable(s.doctors, once) && Selectable(Run(s, once).doctors, once)
      && Run(Run(s, once), once).prescriptions == s.prescriptions + [p, p]
      && Run(Run(s, once), once).output == s.output + LogLine(p) + LogLine(p)
  {
    var once := Attempt(patient, medication, index, confirm);
    var typed := s.(patientText := patient, medicationText := medication);
    var p := Draft(typed, index);
    AttemptCommits(s, patient, medication, index, confirm);
    var s1 := Run(s, once);
    var typedAgain := s1.(patientText := patient, medicationText := medication);
    OutcomeIgnoresHistory(typed, typedAgain, index, confirm);
    AttemptCommits(s1, patient, medication, index, confirm);
    AppendTwice(s.prescriptions, p);
  }

  /** Appending an element twice appends the pair. */
  lemma AppendTwice<T>(xs: seq<T>, x: T)
    ensures xs + [x] + [x] == xs + [x, x]
  {
  }

  /** An attempt repeated still selects a registered doctor. */
  lemma RepeatedAttemptSelectable(doctors: seq<Doctor>, patient: string, medication: string, index: nat, confirm: bool)
    requires index < |doctors|
    ensures var once := Attempt(patient, medication, index, confirm);
      Selectable(doctors, once + once)
  {
    var once: seq<Event> := Attempt(patient, medication, index, confirm);
    forall k | 0 <= k < |once + once| && (once + once)[k].SubmitPressed?
      ensures (once + once)[k].index < |doctors|
    {
      assert (once + once)[k] == once[k % 3];
    }
  }

  /**
   * No deduplication: the same attempt made twice records two equal
   * prescriptions, and prints two equal lines, when the first one commits.
   */
  lemma RepeatedSubmissionRecordedTwice(s: ManagerState, patient: string, medication: string, index: nat, confirm: bool)
    requires index < |s.doctors|
    requires Submission(s.(patientText := patient, medicationText := medication), index, confirm).0.Submitted?
    ensures var once := Attempt(patient, medication, index, confirm);
      var p := Draft(s.(patientText := patient, medicationText := medication), index);
      Selectable(s.doctors, once + once)
      && Run(s, once + once).prescriptions == s.prescriptions + [p, p]
      && Run(s, once + once).output == s.output + LogLine(p) + LogLine(p)
  {
    var once := Attempt(patient, medication, index, confirm);
    AttemptTwice(s, patient, medication, index, confirm);
    RepeatedAttemptSelectable(s.doctors, patient, medication, index, confirm);
    RunConcat(s, once, once);
  }

  // ------------------------------------------------- the examples of the form

  /** The form as `initDoctors` and the empty widgets leave it. */
  function Initial(): ManagerState
  {
    ManagerState(Registry(), [], "", "", "")
  }

  /** The freshly built form is well formed. */
  lemma InitialWellFormed()
    ensures WellFormed(Initial())
  {
  }

  /**
   * With the registry, some doctor suits a medication exactly when the rules
   * it fires all demand the same specialization.
   */
  lemma RegistryHasSuitableDoctorIffRulesAgree(medication: string)
    ensures (exists k :: 0 <= k < |Registry()| && IsDoctorSuitable(Registry()[k].specialization, medication))
        <==> (forall i, j :: Triggers(medication, i) && Triggers(medication, j)
                ==> Rules[i].specialization == Rules[j].specialization)
  {
    var doctors := Registry();
    if exists k :: 0 <= k < |doctors| && IsDoctorSuitable(doctors[k].specialization, medication) {
      var k :| 0 <= k < |doctors| && IsDoctorSuitable(doctors[k].specialization, medication);
      forall i, j | Triggers(medication, i) && Triggers(medication, j)
        ensures Rules[i].specialization == Rules[j].specialization
      {
        if Rules[i].specialization != Rules[j].specialization {
          ConflictingRulesExcludeEveryone(doctors[k].specialization, medication, i, j);
        }
      }
    }
    if forall i, j :: Triggers(medication, i) && Triggers(medication, j)
                ==> Rules[i].specialization == Rules[j].specialization {
      if exists i :: Triggers(medication, i) {
        var i :| Triggers(medication, i);
        var x := Rules[i].specialization;
        var k := if x == Dermatologist then 0 else if x == Cardiologist then 1 else 2;
        assert doctors[k].specialization == x;
        EqualsIgnoreCaseEquivalence(x, x, x);
        SuitableIffEveryTriggeredRuleMet(x, medication);
        assert IsDoctorSuitable(doctors[k].specialization, medication);
      } else {
        SuitableIffEveryTriggeredRuleMet(doctors[0].specialization, medication);
        assert IsDoctorSuitable(doctors[0].specialization, medication);
      }
    }
  }

  /**
   * Cardiologist Alice Smith (entry 1 of the registry) and a complaint she
   * suits, such as "Chest pain" (see `CardiacOnlySuitsCardiologist`): it
   * commits without asking, whatever the answer would have been, recording
   * the trimmed patient, the lower-cased medication and her display name.
   */
  lemma SuitableComplaintForCardiologist(s: ManagerState, confirm: bool)
    requires s.doctors == Registry() && Trim(s.patientText) != [] && Trim(s.medicationText) != []
    requires IsDoctorSuitable(Cardiologist, ToLower(Trim(s.medicationText)))
    ensures var p := Prescription(Trim(s.patientText), ToLower(Trim(s.medicationText)), "Dr. Alice Smith (Cardiologist)");
      Submission(s, 1, confirm) == (Submitted(false), s.(
        prescriptions := s.prescriptions + [p],
        patientText := "",
        medicationText := "",
        output := s.output + LogLine(p)))
  {
    CardiologistEntryShown();
    SuitablePairingCommits(s, 1, confirm);
  }

  /** "Chest pain" has no blank at either end, so trimming keeps it. */
  lemma ChestPainTrimmed(t: string)
    requires t == "Chest pain"
    ensures Trim(t) == t
  {
    TrimFixedIff(t);
  }

  /** Lower-casing "Chest pain" changes only the 'C'. */
  lemma ChestPainLowered(s: string, t: string)
    requires s == "Chest pain" && t == "chest pain"
    ensures ToLower(s) == t
  {
    var r := ToLower(s);
    assert r[0] == t[0];
    forall k | 1 <= k < |s|
      ensures r[k] == t[k]
    {
      assert s[k] == t[k];
    }
  }

  /** A medication without the letters d, k, o and f triggers no rule but "heart"/"chest". */
  lemma CardiacLettersOnly(m: string)
    requires 'd' !in m && 'k' !in m && 'o' !in m && 'f' !in m
    ensures IsDoctorSuitable(Cardiologist, m)
  {
    MissingCharExcludes(m, "headache", 3);
    MissingCharExcludes(m, "skin", 1);
    MissingCharExcludes(m, "cough", 1);
    MissingCharExcludes(m, "flu", 0);
    MissingCharExcludes(m, "cold", 1);
    CardiacOnlySuitsCardiologist(m);
  }

  /** "chest pain" suits a Cardiologist. */
  lemma ChestPainSuitsCardiologist(m: string)
    requires m == "chest pain"
    ensures IsDoctorSuitable(Cardiologist, m)
  {
    CardiacLettersOnly(m);
  }

  /**
   * Patient "John Doe" and medication "Chest pain" with Alice Smith selected:
   * the record commits without the override question and its line is added.
   */
  lemma ChestPainForAliceSmith(s: ManagerState, confirm: bool)
    requires s.doctors == Registry() && s.patientText == "John Doe" && s.medicationText == "Chest pain"
    ensures var p := Prescription("John Doe", "chest pain", "Dr. Alice Smith (Cardiologist)");
      Submission(s, 1, confirm).0 == Submitted(false)
      && Submission(s, 1, confirm).1.prescriptions == s.prescriptions + [p]
      && Submission(s, 1, confirm).1.output == s.output + LogLine(p)
  {
    TrimFixedIff(s.patientText);
    ChestPainTrimmed(s.medicationText);
    ChestPainLowered(s.medicationText, "chest pain");
    ChestPainSuitsCardiologist(ToLower(Trim(s.medicationText)));
    SuitableComplaintForCardiologist(s, confirm);
  }

  /**
   * General Practitioner Cathy Lee (entry 2) and a complaint mentioning
   * "skin", such as "skin rash": the pairing is unsuitable, so declining the
   * override changes nothing and accepting it commits the record.
   */
  lemma SkinComplaintForGeneralPractitioner(s: ManagerState)
    requires s.doctors == Registry() && Trim(s.patientText) != []
    requires Contains(ToLower(Trim(s.medicationText)), "skin")
    ensures Submission(s, 2, false) == (OverrideDeclined, s)
    ensures var p := Prescription(Trim(s.patientText), ToLower(Trim(s.medicationText)), "Dr. Cathy Lee (General Practitioner)");
      Submission(s, 2, true) == (Submitted(true), s.(
        prescriptions := s.prescriptions + [p],
        patientText := "",
        medicationText := "",
        output := s.output + LogLine(p)))
  {
    var m := ToLower(Trim(s.medicationText));
    SkinNeedsDermatologist(GeneralPractitioner, m);
    assert !EqualsIgnoreCase(GeneralPractitioner, Dermatologist);
    GeneralPractitionerEntryShown();
    SubmissionGates(s, 2, false);
    SubmissionGates(s, 2, true);
  }

  // ------------------------------------------------------------ the form

  /** `PharmacyPrescriptionManager` without its widgets: the lists and the texts of the three text components. */
  class PrescriptionManager {
    var doctors: seq<Doctor>
    var prescriptions: seq<Prescription>
    var patientText: string
    var medicationText: string
    var output: string

    /** The fields as one value. */
    function Snapshot(): ManagerState
      reads this
    {
      ManagerState(doctors, prescriptions, patientText, medicationText, output)
    }

    ghost predicate Valid()
      reads this
    {
      WellFormed(Snapshot())
    }

    /** The constructor's non-visual part: empty lists and texts, then `initDoctors`. */
    constructor ()
      ensures Valid()
      ensures Snapshot() == Initial()
    {
      doctors := [];
      prescriptions := [];
      patientText, medicationText, output := "", "", "";
      new;
      InitDoctors();
    }

    /** `initDoctors`: registers the three doctors at the end of the list. */
    method InitDoctors()
      requires Valid()
      modifies this
      ensures Valid()
      ensures doctors == old(doctors) + Registry()
      ensures prescriptions == old(prescriptions) && output == old(output)
      ensures patientText == old(patientText) && medicationText == old(medicationText)
    {
      doctors := doctors + [Doctor("Bob Johnson", "Dermatologist", true)];
      doctors := doctors + [Doctor("Alice Smith", "Cardiologist", true)];
      doctors := doctors + [Doctor("Cathy Lee", "General Practitioner", true)];
    }

    /** The user edits the patient name field. */
    method TypePatient(text: string)
      requires Valid()
      modifies this
      ensures Valid()
      ensures Snapshot() == Step(old(Snapshot()), PatientTyped(text))
    {
      patientText := text;
    }

    /** The user edits the medication field. */
    method TypeMedication(text: string)
      requires Valid()
      modifies this
      ensures Valid()
      ensures Snapshot() == Step(old(Snapshot()), MedicationTyped(text))
    {
      medicationText := text;
    }

    /**
     * `submitPrescription` with doctor `selectedIndex` chosen in the combo
     * box and `confirm` as the answer to the override question.
     */
    method Submit(selectedIndex: nat, confirm: bool) returns (outcome: Outcome)
      requires Valid()
      requires selectedIndex < |doctors|
      modifies this
      ensures Valid()
      ensures (outcome, Snapshot()) == Submission(old(Snapshot()), selectedIndex, confirm)
    {
      ghost var before := Snapshot();
      var selectedDoctor := doctors[selectedIndex];
      if !selectedDoctor.isAvailable {
        return DoctorUnavailable;
      }
      var patientName := Trim(patientText);
      var medication := ToLower(Trim(medicationText));
      if patientName == [] || medication == [] {
        return MissingInput;
      }
      var suitable := IsDoctorSuitable(selectedDoctor.specialization, medication);
      if !suitable && !confirm {
        return OverrideDeclined;
      }
      var prescription := Prescription(patientName, medication, selectedDoctor.DisplayName());
      prescriptions := prescriptions + [prescription];
      patientText := "";
      medicationText := "";
      output := output + LogLine(prescription);
      outcome := Submitted(!suitable);
      assert Snapshot() == Submission(before, selectedIndex, confirm).1;
      SubmissionKeepsWellFormed(before, selectedIndex, confirm);
    }
  }
}
