# Pharmacy prescription manager — verified model

This project models the non-visual logic of the single-window pharmacy form
(`PharmacyPrescriptionManager.java`). An administrator picks a doctor from a
fixed registry, types a patient name and a medication or illness, and presses
submit. The submit action runs four gates in order:

1. it refuses an unavailable doctor;
2. it refuses an empty patient or medication after trimming;
3. it checks the doctor's specialization against a keyword table, and on a
   mismatch asks whether to override;
4. it records the prescription, clears both fields and appends a
   confirmation line to the output area.

Files and modules:

- `option.dfy` (`Options`): the optional value the parsers return.
- `text.dfy` (`JavaText`): the `String` operations the form uses —
  `contains`, `trim`, `toLowerCase` and `equalsIgnoreCase` — each with its
  defining properties. `IndexOf` and `StartsWith` are helpers for the
  model's own parsers; the form itself does not search strings that way.
- `records.dfy` (`Records`): `Doctor` and `Prescription` and the strings they
  render (display name, detail line, confirmation line, output transcript).
  The display name and the detail line each come with a parser, proved to
  invert them. The confirmation line and the transcript have no parser;
  lemmas state how the transcript grows.
- `suitability.dfy` (`Suitability`): `isDoctorSuitable` as the source's chain
  of checks, plus the same knowledge as a keyword/specialization table
  (`Rules`). The lemmas prove the two agree and derive the rule-by-rule
  consequences from that.
- `manager.dfy` (`Manager`): the form's state as a value. `Submission` is
  the submit action on that value, and `Run` applies a sequence of user
  events. The class `PrescriptionManager` holds the same state in fields
  (`doctors`, `prescriptions`, the two field texts, the output text); its
  methods carry `modifies this` and are proved to follow `Submission` and
  `Step`. Its invariant `Valid()` says the state is `WellFormed`:
  - the output text is exactly the transcript of the recorded prescriptions;
  - every recorded prescription has a non-empty trimmed patient name;
  - every one has a non-empty, trimmed, lower-case medication;
  - every one names an available registered doctor.

## Model

| member | source | states |
|---|---|---|
| `JavaText.Contains` | PharmacyPrescriptionManager.java:202-211 | `String.contains`: the word is a prefix of the text or of one of its suffixes; its meaning is stated by `ContainsIffOccurs` |
| `JavaText.ContainsIffOccurs` | PharmacyPrescriptionManager.java:202-211 | `contains` holds exactly when the word occurs at some index of the text |
| `JavaText.ContainsInConcat` | PharmacyPrescriptionManager.java:202-211 | adding text before or after a string keeps every word it contains |
| `JavaText.MissingCharExcludes` | PharmacyPrescriptionManager.java:202-211 | a text lacking one of a word's characters does not contain the word |
| `JavaText.Trim` | PharmacyPrescriptionManager.java:158-159 | the result is the block of the input left after the blanks (chars <= U+0020) at both ends are cut: blanks before and after it, non-blank ends, and empty exactly when the input is all blank |
| `JavaText.TrimFixedIff` | PharmacyPrescriptionManager.java:158-159 | a string is its own trim exactly when it is empty or neither end is blank |
| `JavaText.TrimIdempotent` | PharmacyPrescriptionManager.java:158-159 | trimming twice equals trimming once |
| `JavaText.ToLower` | PharmacyPrescriptionManager.java:159 | same length; every character is folded to lower case |
| `JavaText.ToLowerIdempotent` | PharmacyPrescriptionManager.java:159 | the result holds no upper-case letter, and lower-casing it again changes nothing |
| `JavaText.ToLowerKeepsTrimmed` | PharmacyPrescriptionManager.java:159 | lower-casing a trimmed string leaves it trimmed, so the stored medication is trimmed |
| `JavaText.EqualsIgnoreCase` | PharmacyPrescriptionManager.java:202-212 | `String.equalsIgnoreCase`: same length and equal character by character after ASCII lower-casing; its properties are stated by the two lemmas below |
| `JavaText.EqualsIgnoreCaseIffLowerEqual` | PharmacyPrescriptionManager.java:202-212 | comparing ignoring case is the same as comparing the lower-cased strings |
| `JavaText.EqualsIgnoreCaseEquivalence` | PharmacyPrescriptionManager.java:202-212 | comparing ignoring case is reflexive, symmetric and transitive |
| `Records.Doctor.DisplayName` | PharmacyPrescriptionManager.java:31-33 | `getDisplayName`: `"Dr. " + name + " (" + specialization + ")"`; `DisplayNameRoundTrip` and `ParseDisplayNameSound` prove it loses nothing when the name has no '(' |
| `Records.Prescription.Details` | PharmacyPrescriptionManager.java:47-49 | `getDetails`: `"Patient: " + patient + ", Medication: " + medication + ", Prescribed by: " + doctor`; `DetailsRoundTrip` and `ParseDetailsSound` prove it loses nothing when patient and medication have no comma |
| `Records.LogLine` | PharmacyPrescriptionManager.java:196 | the text appended to the output area for one prescription: the check mark U+2705, a space, its details and a newline; `TranscriptAppend` ties it to the output |
| `Records.TranscriptAppend` | PharmacyPrescriptionManager.java:196 | one more committed prescription adds exactly its line `"✅ " + details + "\n"` at the end of the output |
| `Records.TranscriptPrefix` | PharmacyPrescriptionManager.java:196 | the output of a longer history extends the output of any earlier one |
| `Records.DisplayNameRoundTrip` | PharmacyPrescriptionManager.java:31-33 | `"Dr. " + name + " (" + specialization + ")"` parses back to the name and specialization when the name has no '(' |
| `Records.ParseDisplayNameSound` | PharmacyPrescriptionManager.java:31-33 | every string the display-name parser accepts is exactly the display name of the parts it returns |
| `Records.DetailsRoundTrip` | PharmacyPrescriptionManager.java:47-49 | `"Patient: " + p + ", Medication: " + m + ", Prescribed by: " + d` parses back to the prescription when p and m have no comma |
| `Records.ParseDetailsSound` | PharmacyPrescriptionManager.java:47-49 | every string the detail parser accepts is exactly the detail line of the prescription it returns |
| `Suitability.IsDoctorSuitable` | PharmacyPrescriptionManager.java:200-217 | `isDoctorSuitable` as the source's chain of four checks in the same order; `SuitableIffEveryTriggeredRuleMet` states what it decides |
| `Suitability.SuitableIffEveryTriggeredRuleMet` | PharmacyPrescriptionManager.java:200-217 | the chain of four checks accepts exactly when every table rule whose keyword occurs is met, ignoring case |
| `Suitability.SuitableIffMeetsRequired` | PharmacyPrescriptionManager.java:200-217 | the same, over the set of required specializations |
| `Suitability.HeadacheNeedsGeneralPractitioner` | PharmacyPrescriptionManager.java:202-204 | with "headache" present, only a General Practitioner (ignoring case) can be suitable |
| `Suitability.RespiratoryNeedsGeneralPractitioner` | PharmacyPrescriptionManager.java:211-214 | with "cough", "flu" or "cold" present, only a General Practitioner can be suitable |
| `Suitability.SkinNeedsDermatologist` | PharmacyPrescriptionManager.java:205-207 | with "skin" present, only a Dermatologist can be suitable |
| `Suitability.HeartNeedsCardiologist` | PharmacyPrescriptionManager.java:208-210 | with "heart" or "chest" present, only a Cardiologist can be suitable |
| `Suitability.CardiacOnlySuitsCardiologist` | PharmacyPrescriptionManager.java:200-217 | when "heart"/"chest" are the only trigger words that can occur, a Cardiologist is suitable |
| `Suitability.AllSuitableIffNoTrigger` | PharmacyPrescriptionManager.java:200-217 | every specialization is suitable exactly when none of the seven trigger words occurs |
| `Suitability.RuleSpecializationsDiffer` | PharmacyPrescriptionManager.java:202-212 | the three required specializations are equal ignoring case only when they are the same |
| `Suitability.ConflictingRulesExcludeEveryone` | PharmacyPrescriptionManager.java:200-217 | if two triggered rules demand different specializations, no specialization is suitable |
| `Suitability.SkinAndChestExcludeEveryone` | PharmacyPrescriptionManager.java:205-210 | a medication with both "skin" and "chest" suits nobody |
| `Suitability.SuitabilityIgnoresCase` | PharmacyPrescriptionManager.java:202-212 | two specializations equal ignoring case are suitable for exactly the same medications |
| `Suitability.LongerMedicationNoMoreSuitable` | PharmacyPrescriptionManager.java:200-217 | a specialization suitable for a text is suitable for each of its parts |
| `Manager.Registry` | PharmacyPrescriptionManager.java:72-76 | the three doctors `initDoctors` registers, in order, all available; `RegistryNeverUnavailable` and `RegistryHasSuitableDoctorIffRulesAgree` state what follows |
| `Manager.Submission` | PharmacyPrescriptionManager.java:144-197 | outcome DoctorUnavailable exactly for an unavailable doctor, MissingInput exactly for an available doctor with an empty trimmed field; any abort leaves the state unchanged; a commit appends one record (trimmed patient, lower-cased trimmed medication, display name), clears both fields and appends its line to the output, with nothing else changed |
| `Manager.SubmissionGates` | PharmacyPrescriptionManager.java:170-181 | a submission commits exactly when the doctor is available, both trimmed fields are non-empty, and the pairing is suitable or the override is confirmed; the commit reports whether the override was needed |
| `Manager.SuitablePairingCommits` | PharmacyPrescriptionManager.java:170-189 | a suitable pairing with both fields filled commits whatever the override answer would have been |
| `Manager.DraftRecordOk` | PharmacyPrescriptionManager.java:158-188 | the record a commit creates has a non-empty trimmed patient name, a non-empty trimmed lower-case medication and the display name of an available registered doctor |
| `Manager.SubmissionKeepsWellFormed` | PharmacyPrescriptionManager.java:144-197 | a submission keeps the output equal to the transcript and every record trimmed, lower-case and tied to an available registered doctor |
| `Manager.Step` | PharmacyPrescriptionManager.java:144-197 | no event changes the doctor registry |
| `Manager.Run` | PharmacyPrescriptionManager.java:144-197 | no sequence of events changes the doctor registry |
| `Manager.RunIsAppendOnly` | PharmacyPrescriptionManager.java:189-196 | over any sequence of events the earlier prescriptions and the earlier output stay as a prefix |
| `Manager.RunKeepsWellFormed` | PharmacyPrescriptionManager.java:144-197 | over any sequence of events the state stays well formed |
| `Manager.OutcomeIgnoresHistory` | PharmacyPrescriptionManager.java:144-189 | how a submission ends and what it would record depend only on the registry and the two field texts, not on earlier records |
| `Manager.AttemptCommits` | PharmacyPrescriptionManager.java:184-196 | typing both fields and pressing submit, when it commits, adds exactly one record and its one output line and keeps the registry |
| `Manager.RepeatedSubmissionRecordedTwice` | PharmacyPrescriptionManager.java:184-196 | the same committed attempt made twice records two equal prescriptions and appends two identical output lines (no deduplication) |
| `Manager.RegistryNeverUnavailable` | PharmacyPrescriptionManager.java:72-76 | every registered doctor is available, so with the registry a submission never ends at the availability gate |
| `Manager.InitialWellFormed` | PharmacyPrescriptionManager.java:72-76 | the freshly built form (registry, no records, empty texts) is well formed |
| `Manager.RegistryHasSuitableDoctorIffRulesAgree` | PharmacyPrescriptionManager.java:72-76 | some registered doctor suits a medication exactly when all rules it triggers demand the same specialization |
| `Manager.SuitableComplaintForCardiologist` | PharmacyPrescriptionManager.java:170-196 | Alice Smith and a medication she suits commit without the question, recording "Dr. Alice Smith (Cardiologist)" and the lower-cased medication |
| `Manager.SkinComplaintForGeneralPractitioner` | PharmacyPrescriptionManager.java:170-196 | Cathy Lee and a "skin" medication: declining the override changes nothing; accepting commits the record with "Dr. Cathy Lee (General Practitioner)" |
| `Manager.CardiacLettersOnly` | PharmacyPrescriptionManager.java:200-217 | a medication without the letters d, k, o and f cannot contain headache, skin, cough, flu or cold, so a Cardiologist suits it |
| `Manager.ChestPainForAliceSmith` | PharmacyPrescriptionManager.java:158-196 | patient "John Doe", medication "Chest pain" and Alice Smith: the submission commits without the question, records "chest pain" with "Dr. Alice Smith (Cardiologist)", and appends that record's line |
| `Manager.PrescriptionManager.constructor` | PharmacyPrescriptionManager.java:62-70 | the built form holds the registry, no prescriptions and empty texts, and is valid |
| `Manager.PrescriptionManager.InitDoctors` | PharmacyPrescriptionManager.java:72-76 | appends Bob Johnson (Dermatologist), Alice Smith (Cardiologist) and Cathy Lee (General Practitioner), all available, changes nothing else and keeps the form valid |
| `Manager.PrescriptionManager.TypePatient` | PharmacyPrescriptionManager.java:158 | editing the patient field changes only its text and keeps the form valid |
| `Manager.PrescriptionManager.TypeMedication` | PharmacyPrescriptionManager.java:159 | editing the medication field changes only its text and keeps the form valid |
| `Manager.PrescriptionManager.Submit` | PharmacyPrescriptionManager.java:144-197 | the fields and the returned outcome after the call are exactly `Submission` of the fields before it; the form stays valid |

## Left out

- Swing layout, colours, sizes and widgets (lines 62-70 apart from `initDoctors`, and 78-142) are presentation only. This includes the combo box filled with display names (92-95). The selected index is a parameter, required to be within the doctor list, because the combo box lists the doctors one-to-one.
- The three `JOptionPane` dialogs are not shown. `Submit` returns an `Outcome` naming the dialog that ended the submission (or the commit); the source method returns nothing. The confirm dialog's answer is the `confirm` parameter: YES is `true`; NO and closing the dialog are both `false`.
- Typing into the two text fields is user input through Swing. It is modelled as `TypePatient` and `TypeMedication`, which replace the field text.
- The output `JTextArea` is modelled as the single string it displays; `append` is string concatenation.
- `main` and `SwingUtilities.invokeLater` (219-223) are event-thread plumbing.
- Case folding is ASCII only: `toLowerCase` and `equalsIgnoreCase` map 'A'..'Z' to 'a'..'z' and leave every other character alone. Locale rules and non-ASCII letters are not modelled.
- `trim` cuts characters at or below U+0020, as Java's `String.trim` does. Other Unicode whitespace is kept, as in Java.
- Java strings are UTF-16. The model works on characters; the only non-ASCII character produced, the check mark U+2705, is a single UTF-16 unit.
- The inline comment on Bob Johnson (line 73) says he is not available, but his flag is `true`. The model follows the flag.
- The "skin rash" example for Cathy Lee is proved for every medication that contains "skin" (`SkinComplaintForGeneralPractitioner`), not on the literal string. The "Chest pain" example for Alice Smith is proved on its literal strings (`ChestPainForAliceSmith`).
