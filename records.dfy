/**
 * The two record classes of the form, `Doctor` and `Prescription`, and the
 * strings they render: the doctor's display name, the prescription's detail
 * line, and the confirmation lines the output area accumulates.  Each
 * format has a parser that inverts it, which pins the format down.
 */
module Records {

  import opened Options
  import opened JavaText

  /** A doctor of the fixed registry; never changed after construction. */
  datatype Doctor = Doctor(name: string, specialization: string, isAvailable: bool)
  {
    /** `getDisplayName`: "Dr. <name> (<specialization>)". */
    function DisplayName(): string
    {
      "Dr. " + name + " (" + specialization + ")"
    }
  }

  /** A recorded prescription; `prescribedBy` holds the doctor's display name. */
  datatype Prescription = Prescription(patientName: string, medication: string, prescribedBy: string)
  {
    /** `getDetails`: "Patient: <p>, Medication: <m>, Prescribed by: <d>". */
    function Details(): string
    {
      "Patient: " + patientName + ", Medication: " + medication + ", Prescribed by: " + prescribedBy
    }
  }

  /** The line appended to the output area for a committed prescription. */
  function LogLine(p: Prescription): string
  {
    "\U{2705} " + p.Details() + "\n"
  }

  /** The output area's text after the given prescriptions were committed in order. */
  function Transcript(ps: seq<Prescription>): string
  {
    if ps == [] then "" else Transcript(ps[..|ps| - 1]) + LogLine(ps[|ps| - 1])
  }

  /** Committing one more prescription adds exactly its line at the end. */
  lemma TranscriptAppend(ps: seq<Prescription>, p: Prescription)
    ensures Transcript(ps + [p]) == Transcript(ps) + LogLine(p)
  {
    assert (ps + [p])[..|ps|] == ps;
  }

  /** The transcript of a longer history extends that of any earlier one. */
  lemma {:induction false} TranscriptPrefix(ps: seq<Prescription>, qs: seq<Prescription>)
    ensures Transcript(ps) <= Transcript(ps + qs)
    decreases |qs|
  {
    if qs == [] {
      assert ps + qs == ps;
    } else {
      var init := qs[..|qs| - 1];
      assert ps + qs == (ps + init) + [qs[|qs| - 1]];
      TranscriptPrefix(ps, init);
      TranscriptAppend(ps + init, qs[|qs| - 1]);
    }
  }

  // ------------------------------------------------------------- parsers

  /**
   * Splits a display name back into name and specialization at the first
   * '(' (which must follow a space).  Defined for every string.
   */
  function ParseDisplayName(t: string): Option<(string, string)>
  {
    if !StartsWith(t, "Dr. ") || |t| < 5 || t[|t| - 1] != ')' then None
    else
      var body := t[4..|t| - 1];
      match IndexOf(body, '(')
      case None => None
      case Some(i) =>
        if i == 0 || body[i - 1] != ' ' then None
        else Some((body[..i - 1], body[i + 1..]))
  }

  /** A display name whose doctor name has no '(' parses back to its parts. */
  lemma DisplayNameRoundTrip(d: Doctor)
    requires '(' !in d.name
    ensures ParseDisplayName(d.DisplayName()) == Some((d.name, d.specialization))
  {
    var t := d.DisplayName();
    assert t[..4] == "Dr. ";
    var body := t[4..|t| - 1];
    var n := |d.name|;
    assert body == d.name + " (" + d.specialization;
    assert body[..n + 1] == d.name + " ";
    assert '(' !in body[..n + 1];
    IndexOfAt(body, '(', n + 1);
    assert body[..n] == d.name;
    assert body[n + 2..] == d.specialization;
  }

  /** A string framed by "Dr. " and ")" around `name + " (" + specialization` is that display name. */
  lemma DisplayNameFromParts(t: string, name: string, specialization: string)
    requires |t| >= 5 && t[..4] == "Dr. " && t[|t| - 1] == ')'
    requires t[4..|t| - 1] == name + " (" + specialization
    ensures Doctor(name, specialization, true).DisplayName() == t
  {
    var d := Doctor(name, specialization, true).DisplayName();
    assert |d| == |t|;
    forall k | 0 <= k < |t|
      ensures d[k] == t[k]
    {
      if k < 4 {
        assert t[k] == t[..4][k];
      } else if k < |t| - 1 {
        assert t[k] == t[4..|t| - 1][k - 4];
      }
    }
  }

  /** Every string the parser accepts is the display name of what it returns. */
  lemma ParseDisplayNameSound(t: string, name: string, specialization: string, available: bool)
    requires ParseDisplayName(t) == Some((name, specialization))
    ensures Doctor(name, specialization, available).DisplayName() == t
    ensures '(' !in name
  {
    var body := t[4..|t| - 1];
    var i := IndexOf(body, '(').value;
    assert name == body[..i - 1] && specialization == body[i + 1..];
    assert body == name + " (" + specialization by {
      assert body[i - 1] == ' ' && body[i] == '(';
      assert body == body[..i - 1] + [body[i - 1], body[i]] + body[i + 1..];
    }
    DisplayNameFromParts(t, name, specialization);
    assert name <= body[..i];
  }

  /**
   * Cuts `s` at its first comma, which must open `sep`: the text before
   * the comma and the text after the separator.
   */
  function SplitAtSeparator(s: string, sep: string): Option<(string, string)>
  {
    match IndexOf(s, ',')
    case None => None
    case Some(i) =>
      if StartsWith(s[i..], sep) then Some((s[..i], s[i + |sep|..])) else None
  }

  /** A comma-free field followed by a separator splits there. */
  lemma SplitAtSeparatorOf(field: string, sep: string, rest: string)
    requires ',' !in field && sep != [] && sep[0] == ','
    ensures SplitAtSeparator(field + sep + rest, sep) == Some((field, rest))
  {
    var s := field + sep + rest;
    assert s[..|field|] == field;
    IndexOfAt(s, ',', |field|);
    assert s[|field|..] == sep + rest;
    assert s[|field| + |sep|..] == rest;
  }

  /** A string whose suffix at `i` starts with `sep` is its prefix, `sep` and the rest. */
  lemma GlueAt(s: string, i: nat, sep: string)
    requires i <= |s| && StartsWith(s[i..], sep)
    ensures s == s[..i] + sep + s[i + |sep|..]
  {
    assert s[i..] == s[i..][..|sep|] + s[i..][|sep|..];
    assert s == s[..i] + s[i..];
  }

  /** Whatever the split returns glues back to its input. */
  lemma SplitAtSeparatorSound(s: string, sep: string, field: string, rest: string)
    requires SplitAtSeparator(s, sep) == Some((field, rest))
    ensures s == field + sep + rest && ',' !in field
  {
    var i := IndexOf(s, ',').value;
    GlueAt(s, i, sep);
  }

  /** Splits a detail line back into a prescription at the first two commas. */
  function ParseDetails(t: string): Option<Prescription>
  {
    if !StartsWith(t, "Patient: ") then None
    else
      var first := SplitAtSeparator(t[9..], ", Medication: ");
      if first.None? then None
      else
        var second := SplitAtSeparator(first.value.1, ", Prescribed by: ");
        if second.None? then None
        else Some(Prescription(first.value.0, second.value.0, second.value.1))
  }

  /** A detail line whose patient and medication have no comma parses back to its prescription. */
  lemma DetailsRoundTrip(p: Prescription)
    requires ',' !in p.patientName && ',' !in p.medication
    ensures ParseDetails(p.Details()) == Some(p)
  {
    var rest := p.medication + ", Prescribed by: " + p.prescribedBy;
    var a := p.patientName + ", Medication: " + rest;
    assert p.Details() == "Patient: " + a;
    assert p.Details()[9..] == a;
    SplitAtSeparatorOf(p.patientName, ", Medication: ", rest);
    SplitAtSeparatorOf(p.medication, ", Prescribed by: ", p.prescribedBy);
  }

  /** A detail line assembled from the three pieces the parser cuts out. */
  lemma DetailsFromParts(t: string, patient: string, rest: string, medication: string, doctor: string)
    requires StartsWith(t, "Patient: ")
    requires t[9..] == patient + ", Medication: " + rest
    requires rest == medication + ", Prescribed by: " + doctor
    ensures Prescription(patient, medication, doctor).Details() == t
  {
    assert t == "Patient: " + t[9..];
  }

  /** Every string the detail parser accepts is the detail line of what it returns. */
  lemma ParseDetailsSound(t: string, p: Prescription)
    requires ParseDetails(t) == Some(p)
    ensures p.Details() == t
    ensures ',' !in p.patientName && ',' !in p.medication
  {
    var a := t[9..];
    var rest := SplitAtSeparator(a, ", Medication: ").value.1;
    SplitAtSeparatorSound(a, ", Medication: ", p.patientName, rest);
    SplitAtSeparatorSound(rest, ", Prescribed by: ", p.medication, p.prescribedBy);
    DetailsFromParts(t, p.patientName, rest, p.medication, p.prescribedBy);
  }
}
