/**
 The candidate form of ui/candidate_form.py: the values it pre-fills from the session's
 candidate, the validation that runs when the form is submitted, and the candidate dict it
 builds from the entered values. The widgets themselves are not modelled; a `FormInput` is
 what they hold when "Save & Start Mini Interview" is pressed.
 */
module CandidateForm {
  import opened Base
  import opened Text
  import opened Json
  import opened Candidate
  import opened Skills
  import opened Email
  import opened Anonymize

  const PositionPlaceholder: string := "Select Position..."

  /** The position select box's options, the placeholder first. */
  const JobRoles: seq<string> :=
    [PositionPlaceholder, "Software Engineer", "Data Scientist", "Machine Learning Engineer",
     "Full Stack Developer", "Backend Developer", "Frontend Developer", "DevOps Engineer",
     "Cloud Engineer", "QA Engineer", "Product Manager"]

  /** What the widgets hold when the form is submitted. `position` is the select box's choice. */
  datatype FormInput = FormInput(
    name: string, email: string, phone: string, yearsExp: int,
    position: string, location: string,
    degree: string, domain: string, cgpa: string, marks12th: string, marks10th: string,
    lastCompany: string, yearsInCompany: int, positionInCompany: string,
    skills: seq<Skill>,
    linkedin: string, github: string, preferredLocation: string)

  /** The chosen position, with the placeholder read as no choice. */
  function DesiredPosition(choice: string): (r: string)
    ensures r == "" || r == choice
    ensures r == "" <==> choice == PositionPlaceholder || choice == ""
  {
    if choice == PositionPlaceholder then "" else choice
  }

  // ---------------------------------------------------------------------------------------------
  // Validation

  /** The failures validation reports, in the order it checks for them. */
  datatype Problem =
    | NameRequired | EmailRequired | EmailInvalid | PhoneRequired | PhoneNotNumeric
    | PositionRequired | LocationRequired | SkillRequired

  /** Everything the form demands of a candidate before saving it. */
  ghost predicate Acceptable(f: FormInput) {
    !IsBlank(f.name)
    && Shaped(Strip(f.email))
    && IsDigits(Strip(f.phone))
    && !IsBlank(DesiredPosition(f.position))
    && !IsBlank(f.location)
    && FinalSkills(f.skills) != []
  }

  /** Whether validation reports problem `p` for the input. */
  ghost predicate Fails(f: FormInput, p: Problem) {
    match p
    case NameRequired => IsBlank(f.name)
    case EmailRequired => IsBlank(f.email)
    case EmailInvalid => !IsBlank(f.email) && !Matches(Strip(f.email))
    case PhoneRequired => IsBlank(f.phone)
    case PhoneNotNumeric => !IsBlank(f.phone) && !IsDigits(Strip(f.phone))
    case PositionRequired => IsBlank(DesiredPosition(f.position))
    case LocationRequired => IsBlank(f.location)
    case SkillRequired => FinalSkills(f.skills) == []
  }

  /** A required text field: reported when nothing but whitespace was entered. */
  function Required(text: string, p: Problem): (r: seq<Problem>)
    ensures forall q :: q in r <==> q == p && IsBlank(text)
  {
    StripEmptyIffBlank(text);
    if Strip(text) == "" then [p] else []
  }

  /** The email checks: required, then the pattern on the stripped text. */
  function EmailProblems(f: FormInput): (r: seq<Problem>)
    ensures forall p :: p in r <==> (p.EmailRequired? || p.EmailInvalid?) && Fails(f, p)
  {
    StripEmptyIffBlank(f.email);
    var email := Strip(f.email);
    if email == "" then [EmailRequired]
    else if !Matches(email) then [EmailInvalid]
    else []
  }

  /** The phone checks: required, then digits only. */
  function PhoneProblems(f: FormInput): (r: seq<Problem>)
    ensures forall p :: p in r <==> (p.PhoneRequired? || p.PhoneNotNumeric?) && Fails(f, p)
  {
    StripEmptyIffBlank(f.phone);
    var phone := Strip(f.phone);
    if phone == "" then [PhoneRequired]
    else if !IsDigits(phone) then [PhoneNotNumeric]
    else []
  }

  /** The check of one required text field of the form. */
  function FieldProblems(f: FormInput, p: Problem): (r: seq<Problem>)
    requires p.NameRequired? || p.PositionRequired? || p.LocationRequired?
    ensures forall q :: q in r <==> q == p && Fails(f, p)
  {
    var text := if p.NameRequired? then f.name else if p.PositionRequired? then DesiredPosition(f.position) else f.location;
    Required(text, p)
  }

  /** The skills check. */
  function SkillProblems(f: FormInput): (r: seq<Problem>)
    ensures forall p :: p in r <==> p.SkillRequired? && Fails(f, p)
  {
    if FinalSkills(f.skills) == [] then [SkillRequired] else []
  }

  /** The accumulating validation, with the email pattern matched as the regular expression
      would match it: one problem per failed requirement, in the order the checks run. */
  function Validate(f: FormInput): (problems: seq<Problem>) {
    FieldProblems(f, NameRequired) + EmailProblems(f) + PhoneProblems(f)
    + FieldProblems(f, PositionRequired) + FieldProblems(f, LocationRequired) + SkillProblems(f)
  }

  /** Validation reports a problem exactly when the input has it. */
  lemma ValidateReports(f: FormInput, p: Problem)
    ensures p in Validate(f) <==> Fails(f, p)
  {
    var name, email, phone := FieldProblems(f, NameRequired), EmailProblems(f), PhoneProblems(f);
    var position, location, skills := FieldProblems(f, PositionRequired), FieldProblems(f, LocationRequired), SkillProblems(f);
    assert Validate(f) == name + email + phone + position + location + skills;
    assert p in Validate(f) <==> p in name || p in email || p in phone || p in position || p in location || p in skills;
    if p.NameRequired? {
    } else if p.EmailRequired? || p.EmailInvalid? {
    } else if p.PhoneRequired? || p.PhoneNotNumeric? {
    } else if p.PositionRequired? {
    } else if p.LocationRequired? {
    }
  }

  /** Validation reports nothing exactly for the inputs the form demands. */
  lemma ValidateAcceptsIff(f: FormInput)
    ensures Validate(f) == [] <==> Acceptable(f)
  {
    var r := Validate(f);
    if r != [] {
      ValidateReports(f, r[0]);
      if r[0].EmailInvalid? { MatchesIffShaped(Strip(f.email)); }
    }
    if !Acceptable(f) {
      if !IsDigits(Strip(f.phone)) {
        StripEmptyIffBlank(f.phone);
        ValidateReports(f, PhoneRequired);
        ValidateReports(f, PhoneNotNumeric);
      } else if !Shaped(Strip(f.email)) {
        StrippedBlankIsEmpty(f.email);
        MatchesIffShaped(Strip(f.email));
        ValidateReports(f, EmailRequired);
        ValidateReports(f, EmailInvalid);
      }
    }
  }

  /** The validation as written: the module never imports `re`, so reaching the email pattern
      (any email that is not blank) raises `NameError` instead of producing messages. */
  function ValidateAsWritten(f: FormInput): (r: Result<seq<Problem>, PyError>)
    ensures r.Raised? <==> !IsBlank(f.email)
    ensures r.Raised? ==> r.error == NameError
    ensures r.Ok? ==> r.value == Validate(f)
  {
    StripEmptyIffBlank(f.email);
    if Strip(f.email) == "" then Ok(Validate(f)) else Raised(NameError)
  }

  /** As written, no input ever passes validation: a blank email is rejected with a message and
      any other email raises. */
  lemma AsWrittenNeverAccepts(f: FormInput)
    ensures ValidateAsWritten(f) != Ok([])
  {
    if IsBlank(f.email) {
      ValidateReports(f, EmailRequired);
    }
  }

  /** Every well-formed email address makes the code as written raise, however complete the
      rest of the form is; the corrected validation accepts such a form when the other fields
      are filled in. */
  lemma WellFormedEmailRaises(f: FormInput)
    requires Shaped(Strip(f.email))
    ensures ValidateAsWritten(f) == Raised(NameError)
    ensures Acceptable(f) ==> Validate(f) == []
  {
    StrippedBlankIsEmpty(f.email);
    ValidateAcceptsIff(f);
  }

  // ---------------------------------------------------------------------------------------------
  // The candidate dict

  /** The candidate dict: the main fields (text stripped, the position as a one-element list,
      the skills as `final_skills`), merged with the fresher fields, as entered, when
      `years_exp == 0` and with the experience fields otherwise. */
  function BuildCandidate(f: FormInput): (c: Dict) {
    var fresher := f.yearsExp == 0;
    Dict(
      name := Some(JStr(Strip(f.name))),
      email := Some(JStr(Strip(f.email))),
      phone := Some(JStr(Strip(f.phone))),
      yearsExp := Some(JNum(f.yearsExp)),
      desiredPositions := Some(JArr([JStr(DesiredPosition(f.position))])),
      location := Some(JStr(Strip(f.location))),
      techStack := Some(StrList(FinalSkills(f.skills))),
      linkedin := Some(JStr(Strip(f.linkedin))),
      github := Some(JStr(Strip(f.github))),
      preferredLocation := Some(JStr(Strip(f.preferredLocation))),
      techStackRaw := None,
      degree := if fresher then Some(JStr(f.degree)) else None,
      domain := if fresher then Some(JStr(f.domain)) else None,
      cgpa := if fresher then Some(JStr(f.cgpa)) else None,
      marks12th := if fresher then Some(JStr(f.marks12th)) else None,
      marks10th := if fresher then Some(JStr(f.marks10th)) else None,
      lastCompany := if fresher then None else Some(JStr(f.lastCompany)),
      yearsInCompany := if fresher then None else Some(JNum(f.yearsInCompany)),
      positionInCompany := if fresher then None else Some(JStr(f.positionInCompany)))
  }

  /** A submitted candidate has string PII and every main field, but no raw tech-stack text. */
  lemma CandidateKeys(f: FormInput)
    ensures PiiAreStrings(BuildCandidate(f))
    ensures var c := BuildCandidate(f);
            c.name.Some? && c.email.Some? && c.phone.Some? && c.yearsExp.Some? && c.desiredPositions.Some?
            && c.location.Some? && c.techStack.Some? && c.techStackRaw.None?
  {
  }

  /** A fresher field is in the candidate exactly when the years of experience are zero. */
  lemma FresherBranch(f: FormInput, k: Key)
    requires IsFresherField(k)
    ensures Lookup(BuildCandidate(f), k).Some? <==> f.yearsExp == 0
  {
  }

  /** An experience field is in the candidate exactly when the years of experience are not zero. */
  lemma ExperienceBranch(f: FormInput, k: Key)
    requires IsExperienceField(k)
    ensures Lookup(BuildCandidate(f), k).Some? <==> f.yearsExp != 0
  {
  }

  // ---------------------------------------------------------------------------------------------
  // Pre-filled values

  /** The numeric value of a string of ASCII digits. */
  function DigitsValue(s: string): (r: nat)
    requires IsDigits(s) || s == []
  {
    if s == [] then 0 else DigitsValue(s[..|s| - 1]) * 10 + (s[|s| - 1] as int - '0' as int)
  }

  /** Python's `int(v)` on a decoded value. Text is read as an unsigned decimal after `strip()`. */
  function IntOf(v: Json): (r: Result<int, PyError>)
    ensures v.JNum? ==> r == Ok(v.n)
    ensures v.JNull? || v.JArr? || v.JObj? ==> r == Raised(TypeError)
  {
    match v
    case JNum(n) => Ok(n)
    case JBool(b) => Ok(if b then 1 else 0)
    case JStr(s) => if IsDigits(Strip(s)) then Ok(DigitsValue(Strip(s))) else Raised(ValueError)
    case _ => Raised(TypeError)
  }

  /** The position of the first occurrence of `x`. */
  function IndexOf(xs: seq<string>, x: string): (r: nat)
    requires x in xs
    ensures r < |xs| && xs[r] == x && x !in xs[..r]
  {
    if xs[0] == x then 0 else 1 + IndexOf(xs[1..], x)
  }

  /** The select box's initial index: the first stored position when it is one of the options,
      the placeholder otherwise. Subscripting a truthy number raises `TypeError` and a truthy
      dict `KeyError`. */
  function DefaultPositionIndex(v: Json): (r: Result<nat, PyError>)
    ensures r.Ok? ==> r.value < |JobRoles|
    ensures v.JArr? && |v.items| > 0 && v.items[0].JStr? && v.items[0].s in JobRoles
            ==> r.Ok? && JobRoles[r.value] == v.items[0].s
    ensures v.JArr? && (|v.items| == 0 || !v.items[0].JStr? || v.items[0].s !in JobRoles) ==> r == Ok(0)
  {
    if !Truthy(v) then Ok(0)
    else match v
      case JArr(items) =>
        if items[0].JStr? && items[0].s in JobRoles then Ok(IndexOf(JobRoles, items[0].s)) else Ok(0)
      case JStr(s) => if [s[0]] in JobRoles then Ok(IndexOf(JobRoles, [s[0]])) else Ok(0)
      case JObj(_) => Raised(KeyError)
      case _ => Raised(TypeError)
  }

  /** A text widget's initial value: the stored text, or empty. */
  function TextDefault(v: Option<Json>): string {
    if v.Some? && v.value.JStr? then v.value.s else ""
  }

  /** The initial years-in-company value: `int()` of the stored value, 0 when it raises. A
      missing value reads as "" and `int("")` raises, so it gives 0 too. */
  function YearsInCompanyDefault(v: Option<Json>): (r: int)
    ensures v.None? ==> r == 0
    ensures v.Some? && IntOf(v.value).Ok? ==> r == IntOf(v.value).value
    ensures v.Some? && IntOf(v.value).Raised? ==> r == 0
  {
    match v
    case None => 0
    case Some(x) => if IntOf(x).Ok? then IntOf(x).value else 0
  }

  /** The missing-value default "" is not a number. */
  lemma EmptyTextIsNotInt()
    ensures IntOf(JStr("")).Raised?
  {
    assert !IsDigits(Strip(""));
  }

  /** The values the form's widgets start from. */
  datatype Defaults = Defaults(
    name: string, email: string, phone: string, yearsExp: int, positionIndex: nat, location: string,
    degree: string, domain: string, cgpa: string, marks12th: string, marks10th: string,
    lastCompany: string, yearsInCompany: int, positionInCompany: string,
    linkedin: string, github: string, preferredLocation: string)

  /** The widget defaults read from the session's candidate. `int(years_exp)` and the position
      lookup can raise, in that order; a years-in-company value `int()` rejects falls back to 0. */
  function Prefill(c: Dict): (r: Result<Defaults, PyError>)
    ensures IntOf(GetField(c, YearsExp, JNum(0))).Raised? ==> r == Raised(IntOf(GetField(c, YearsExp, JNum(0))).error)
    ensures r.Ok? <==> IntOf(GetField(c, YearsExp, JNum(0))).Ok?
                       && DefaultPositionIndex(GetField(c, DesiredPositions, JArr([]))).Ok?
    ensures r.Ok? ==> r.value.yearsExp == IntOf(GetField(c, YearsExp, JNum(0))).value
    ensures r.Ok? ==> r.value.positionIndex == DefaultPositionIndex(GetField(c, DesiredPositions, JArr([]))).value
  {
    var years := IntOf(GetField(c, YearsExp, JNum(0)));
    var index := DefaultPositionIndex(GetField(c, DesiredPositions, JArr([])));
    if years.Raised? then Raised(years.error)
    else if index.Raised? then Raised(index.error)
    else Ok(Defaults(
      TextDefault(c.name), TextDefault(c.email), TextDefault(c.phone), years.value, index.value,
      TextDefault(c.location),
      TextDefault(c.degree), TextDefault(c.domain), TextDefault(c.cgpa), TextDefault(c.marks12th),
      TextDefault(c.marks10th),
      TextDefault(c.lastCompany), YearsInCompanyDefault(c.yearsInCompany),
      TextDefault(c.positionInCompany),
      TextDefault(c.linkedin), TextDefault(c.github), TextDefault(c.preferredLocation)))
  }

  /** A fresh session's empty candidate starts every widget empty, at zero years and on the
      placeholder. */
  lemma PrefillEmpty()
    ensures var d := Prefill(Empty);
            d.Ok? && d.value.yearsExp == 0 && d.value.positionIndex == 0 && d.value.name == ""
            && d.value.email == "" && d.value.phone == "" && d.value.yearsInCompany == 0
  {
  }

  /** The saved position list selects the chosen option again; the placeholder, saved as "",
      selects the placeholder. */
  lemma PositionRoundTrip(choice: string)
    requires choice in JobRoles
    ensures var r := DefaultPositionIndex(JArr([JStr(DesiredPosition(choice))]));
            r.Ok? && JobRoles[r.value] == choice
  {
    if choice == PositionPlaceholder {
      assert JobRoles[0] == PositionPlaceholder;
      assert "" !in JobRoles by {
        forall k | 0 <= k < |JobRoles| ensures |JobRoles[k]| > 0 { }
      }
    }
  }

  /** Re-rendering the form from the candidate it saved raises nothing, and starts from the
      same years and the same select-box choice. */
  lemma PrefillRestoresChoices(f: FormInput)
    ensures var d := Prefill(BuildCandidate(f));
            d.Ok? && d.value.yearsExp == f.yearsExp
            && (f.position in JobRoles ==> JobRoles[d.value.positionIndex] == f.position)
  {
    var c := BuildCandidate(f);
    var saved := JArr([JStr(DesiredPosition(f.position))]);
    assert GetField(c, YearsExp, JNum(0)) == JNum(f.yearsExp);
    assert GetField(c, DesiredPositions, JArr([])) == saved;
    var d := Prefill(c);
    assert d.Ok? && d.value.positionIndex == DefaultPositionIndex(saved).value;
    if f.position in JobRoles {
      PositionRoundTrip(f.position);
    }
  }

  /** Re-rendering the form shows the stripped text that was entered. */
  lemma PrefillRestoresText(f: FormInput)
    requires Prefill(BuildCandidate(f)).Ok?
    ensures var d := Prefill(BuildCandidate(f)).value;
            d.name == Strip(f.name) && d.email == Strip(f.email) && d.phone == Strip(f.phone)
            && d.location == Strip(f.location) && d.linkedin == Strip(f.linkedin)
            && d.github == Strip(f.github) && d.preferredLocation == Strip(f.preferredLocation)
  {
  }

  /** Re-rendering a fresher's form shows the education details, and the experience widgets
      (not displayed) start empty. */
  lemma PrefillRestoresFresher(f: FormInput)
    requires f.yearsExp == 0 && Prefill(BuildCandidate(f)).Ok?
    ensures var d := Prefill(BuildCandidate(f)).value;
            d.degree == f.degree && d.domain == f.domain && d.cgpa == f.cgpa
            && d.marks12th == f.marks12th && d.marks10th == f.marks10th
            && d.lastCompany == "" && d.yearsInCompany == 0 && d.positionInCompany == ""
  {
  }

  /** Re-rendering an experienced candidate's form shows the experience details, and the
      education widgets (not displayed) start empty. */
  lemma PrefillRestoresExperience(f: FormInput)
    requires f.yearsExp != 0 && Prefill(BuildCandidate(f)).Ok?
    ensures var d := Prefill(BuildCandidate(f)).value;
            d.lastCompany == f.lastCompany && d.yearsInCompany == f.yearsInCompany
            && d.positionInCompany == f.positionInCompany
            && d.degree == "" && d.domain == "" && d.cgpa == ""
  {
  }
}
