/**
 The page-level transitions of the two front ends: the candidate form's submission in
 ui/candidate_form.py, question generation after it in app.py, the single-file flow of
 aqchat.py (form, save, reset, generation), and the evaluation step of both. The
 completion service is an input: `reply` is the joined stream it returned, or the
 exception it raised. The candidate log is the sequence of saved records.
 */
module Flows {
  import opened Base
  import opened Text
  import opened Json
  import opened Candidate
  import opened Anonymize
  import opened Extract
  import opened Interview
  import opened CandidateForm
  import opened Store
  import opened Skills

  // ---------------------------------------------------------------------------------------------
  // ui/candidate_form.py: submission

  /** What a run of `candidate_form()` leaves behind: the state, its return value, the log. */
  datatype FormOutcome = FormOutcome(st: State, accepted: bool, log: seq<Saved>)

  /** The skill rows when the editor renders: the session's rows, or a single empty row when
      the key is absent. */
  function SessionSkills(st: State): seq<Skill> {
    if st.skills.Some? then st.skills.value else InitialSkills
  }

  /** The form as `candidate_form()` reads it: the widget values of `f`, with the skills taken
      from the session rows after the editor's dropdown step. `choices` holds one select-box value
      per row; custom rows show no select box and ignore theirs. */
  function Edited(st: State, f: FormInput, choices: seq<string>): (g: FormInput)
    requires |choices| == |SessionSkills(st)|
    ensures g.skills == RowsAsWritten(SessionSkills(st), choices)
    ensures g == f.(skills := g.skills)
  {
    f.(skills := RowsAsWritten(SessionSkills(st), choices))
  }

  /** One run of `candidate_form()`, with the validation the code evidently intends. The skill
      editor runs first on every call: it creates the rows when absent and rewrites each
      non-custom row from its select box, and `final_skills` is read from those rows. Without
      the button press, or with a problem, the function returns False and nothing else changes;
      otherwise it stores the candidate, appends its record to the log, resets the interview and
      returns True. */
  function SubmitForm(st: State, f: FormInput, choices: seq<string>, pressed: bool, h: string -> string,
                      salt: string, now: string, log: seq<Saved>): (r: FormOutcome)
    requires |choices| == |SessionSkills(st)|
    ensures r.st.skills == Some(RowsAsWritten(SessionSkills(st), choices))
    ensures r.accepted <==> pressed && Acceptable(Edited(st, f, choices))
    ensures !r.accepted ==> r.st == st.(skills := r.st.skills) && r.log == log
    ensures r.accepted ==>
              var c := BuildCandidate(Edited(st, f, choices));
              && PiiAreStrings(c)
              && r.st.candidate == Some(c)
              && c.techStack == Some(StrList(FinalSkills(r.st.skills.value)))
              && r.log == log + [AnonymizeCore(c, h, salt, now)]
              && r.st.questions == Some([]) && r.st.answers == Some([]) && r.st.currentQ == Some(0)
              && r.st.messages == st.messages && r.st.chain == st.chain
  {
    var g := Edited(st, f, choices);
    var st0 := st.(skills := Some(g.skills));
    ValidateAcceptsIff(g);
    if !pressed || Validate(g) != [] then FormOutcome(st0, false, log)
    else
      var c := BuildCandidate(g);
      CandidateKeys(g);
      FormOutcome(st0.(candidate := Some(c), questions := Some([]), answers := Some([]), currentQ := Some(0)),
                  true, log + [AnonymizeCore(c, h, salt, now)])
  }

  /** The first render of a new session creates the single empty row, and leaving its select
      box on the placeholder keeps it empty; nothing else changes without the button. */
  lemma FirstRenderCreatesSkills(f: FormInput, h: string -> string, salt: string, now: string, log: seq<Saved>)
    ensures SubmitForm(Start, f, [SkillPlaceholder], false, h, salt, now, log)
            == FormOutcome(Start.(skills := Some([Blank])), false, log)
  {
    assert SessionSkills(Start) == InitialSkills;
    var rows := RowsAsWritten(InitialSkills, [SkillPlaceholder]);
    assert rows[0] == RowAsWritten(Blank, SkillPlaceholder) == Blank;
    assert rows == [Blank];
  }

  /** The submission as written: the email check raises `NameError` for every non-blank email,
      which aborts the page after the skill editor has run. */
  function SubmitFormAsWritten(st: State, f: FormInput, choices: seq<string>, pressed: bool, h: string -> string,
                               salt: string, now: string, log: seq<Saved>): (r: Result<FormOutcome, PyError>)
    requires |choices| == |SessionSkills(st)|
    ensures r.Raised? <==> pressed && !IsBlank(f.email)
    ensures r.Ok? ==> r.value.st.skills == Some(RowsAsWritten(SessionSkills(st), choices))
    ensures r.Ok? ==> !r.value.accepted ==> r.value.st == st.(skills := r.value.st.skills) && r.value.log == log
  {
    var g := Edited(st, f, choices);
    var st0 := st.(skills := Some(g.skills));
    if !pressed then Ok(FormOutcome(st0, false, log))
    else match ValidateAsWritten(g)
      case Raised(e) => Raised(e)
      case Ok(problems) =>
        if problems != [] then Ok(FormOutcome(st0, false, log))
        else
          var c := BuildCandidate(g);
          CandidateKeys(g);
          Ok(FormOutcome(st0.(candidate := Some(c), questions := Some([]), answers := Some([]), currentQ := Some(0)),
                         true, log + [AnonymizeCore(c, h, salt, now)]))
  }

  /** As written, the form never returns True and never saves a candidate or resets the
      interview: each submission either shows errors or raises. */
  lemma FormAsWrittenNeverSaves(st: State, f: FormInput, choices: seq<string>, pressed: bool, h: string -> string,
                                salt: string, now: string, log: seq<Saved>)
    requires |choices| == |SessionSkills(st)|
    ensures var r := SubmitFormAsWritten(st, f, choices, pressed, h, salt, now, log);
            r.Ok? ==> !r.value.accepted && r.value.st == st.(skills := Some(Edited(st, f, choices).skills))
                      && r.value.log == log
  {
    AsWrittenNeverAccepts(Edited(st, f, choices));
  }

  /** Submitting keeps the state invariant. */
  lemma SubmitFormKeepsValid(st: State, f: FormInput, choices: seq<string>, pressed: bool, h: string -> string, salt: string,
                             now: string, log: seq<Saved>)
    requires |choices| == |SessionSkills(st)|
    requires Store.Valid(st)
    ensures Store.Valid(SubmitForm(st, f, choices, pressed, h, salt, now, log).st)
  {
    FreshValid([]);
  }

  // ---------------------------------------------------------------------------------------------
  // app.py: question generation

  /** What a generation step leaves behind: the state, whether the completion service was
      called, and the exception the page reported. */
  datatype Generation = Generation(st: State, called: bool, error: Option<PyError>)

  /** The chain a submission uses: the stored one if the key is present, a new one otherwise. */
  function ChainFor(st: State, apiKey: string, model: string): (r: Option<Chain>)
    ensures st.chain.None? ==> r == LoadChain(apiKey, model)
    ensures st.chain.Some? ==> r == st.chain.value
  {
    if st.chain.Some? then st.chain.value else LoadChain(apiKey, model)
  }

  /** Parse a completion and keep at most two questions; an exception keeps the questions as
      they are and is reported. */
  function StoreQuestions(st: State, parsed: Result<Json, PyError>): (r: Generation)
    ensures r.called
    ensures parsed.Ok? && QuestionsOf(parsed.value).Ok? ==>
              r.st == st.(questions := Some(QuestionsOf(parsed.value).value)) && r.error.None?
    ensures parsed.Raised? ==> r == Generation(st, true, Some(parsed.error))
    ensures parsed.Ok? && QuestionsOf(parsed.value).Raised? ==>
              r == Generation(st, true, Some(QuestionsOf(parsed.value).error))
  {
    match parsed
    case Raised(e) => Generation(st, true, Some(e))
    case Ok(v) =>
      match QuestionsOf(v)
      case Raised(e) => Generation(st, true, Some(e))
      case Ok(qs) => Generation(st.(questions := Some(qs)), true, None)
  }

  /** app.py after `candidate_form()`: only when it returned True, the chain is loaded if
      absent, and only when the chain exists the service is called and its reply parsed with the
      `{}` fallback. */
  function GenerateApp(st: State, accepted: bool, apiKey: string, model: string,
                       reply: Result<string, PyError>, parse: Parser): (r: Generation)
    ensures !accepted ==> r == Generation(st, false, None)
    ensures accepted ==> r.st.chain == Some(ChainFor(st, apiKey, model))
    ensures r.called <==> accepted && ChainFor(st, apiKey, model).Some?
    ensures r.st.questions != st.questions ==>
              r.called && r.error.None? && reply.Ok? && r.st.questions.Some?
              && |r.st.questions.value| <= MaxQuestions
    ensures r.called && reply.Raised? ==> r.error == Some(reply.error) && r.st.questions == st.questions
    ensures r.called && reply.Ok? ==>
              var p := GenerationParseApp(parse, reply.value);
              && (p.Ok? && QuestionsOf(p.value).Ok? ==>
                    r.st.questions == Some(QuestionsOf(p.value).value) && r.error.None?)
              && (p.Raised? ==> r.error == Some(p.error) && r.st.questions == st.questions)
              && (p.Ok? && QuestionsOf(p.value).Raised? ==>
                    r.error == Some(QuestionsOf(p.value).error) && r.st.questions == st.questions)
    ensures r.st.messages == st.messages && r.st.candidate == st.candidate && r.st.currentQ == st.currentQ
            && r.st.answers == st.answers && r.st.skills == st.skills
  {
    if !accepted then Generation(st, false, None)
    else
      var chain := ChainFor(st, apiKey, model);
      var st1 := st.(chain := Some(chain));
      if chain.None? then Generation(st1, false, None)
      else match reply
        case Raised(e) => Generation(st1, true, Some(e))
        case Ok(text) => StoreQuestions(st1, GenerationParseApp(parse, text))
  }

  /** One app.py rerun from the form on: submission, then generation behind its guard. */
  function AppSubmit(st: State, f: FormInput, choices: seq<string>, pressed: bool, h: string -> string, salt: string, now: string,
                     log: seq<Saved>, apiKey: string, model: string,
                     reply: Result<string, PyError>, parse: Parser): (r: (Generation, seq<Saved>))
    requires |choices| == |SessionSkills(st)|
  {
    var form := SubmitForm(st, f, choices, pressed, h, salt, now, log);
    (GenerateApp(form.st, form.accepted, apiKey, model, reply, parse), form.log)
  }

  /** The service is called only after an accepted form and with a chain. */
  lemma AppSubmitGuard(st: State, f: FormInput, choices: seq<string>, pressed: bool, h: string -> string, salt: string, now: string,
                       log: seq<Saved>, apiKey: string, model: string,
                       reply: Result<string, PyError>, parse: Parser)
    requires |choices| == |SessionSkills(st)|
    ensures AppSubmit(st, f, choices, pressed, h, salt, now, log, apiKey, model, reply, parse).0.called
            <==> pressed && Acceptable(Edited(st, f, choices)) && ChainFor(st, apiKey, model).Some?
  {
    var form := SubmitForm(st, f, choices, pressed, h, salt, now, log);
    assert form.accepted ==> ChainFor(form.st, apiKey, model) == ChainFor(st, apiKey, model);
  }

  /** Generation keeps the state invariant when it follows a reset: new questions arrive only
      after an accepted form, which left the interview at its start. */
  lemma GenerateAppKeepsValid(st: State, accepted: bool, apiKey: string, model: string,
                              reply: Result<string, PyError>, parse: Parser)
    requires Store.Valid(st) && (accepted ==> st.currentQ == Some(0) && st.answers == Some([]))
    ensures Store.Valid(GenerateApp(st, accepted, apiKey, model, reply, parse).st)
  {
    var g := GenerateApp(st, accepted, apiKey, model, reply, parse);
    if g.st.questions != st.questions {
      FreshValid(g.st.questions.value);
    }
  }

  /** The rerun keeps the state invariant: the form reset the interview before the new
      questions arrived. */
  lemma AppSubmitKeepsValid(st: State, f: FormInput, choices: seq<string>, pressed: bool, h: string -> string, salt: string, now: string,
                            log: seq<Saved>, apiKey: string, model: string,
                            reply: Result<string, PyError>, parse: Parser)
    requires |choices| == |SessionSkills(st)|
    requires Store.Valid(st)
    ensures Store.Valid(AppSubmit(st, f, choices, pressed, h, salt, now, log, apiKey, model, reply, parse).0.st)
  {
    var form := SubmitForm(st, f, choices, pressed, h, salt, now, log);
    SubmitFormKeepsValid(st, f, choices, pressed, h, salt, now, log);
    GenerateAppKeepsValid(form.st, form.accepted, apiKey, model, reply, parse);
  }

  /** With neither a strict parse nor a brace slice in the reply, app.py stores no questions
      and reports nothing. */
  lemma AppNoMatchStoresNoQuestions(st: State, f: FormInput, choices: seq<string>, h: string -> string, salt: string, now: string,
                                    log: seq<Saved>, apiKey: string, model: string, text: string, parse: Parser)
    requires |choices| == |SessionSkills(st)|
    requires Acceptable(Edited(st, f, choices)) && ChainFor(st, apiKey, model).Some?
    requires TwoStage(parse, Strip(text), text) == NoMatch
    ensures var (g, _) := AppSubmit(st, f, choices, true, h, salt, now, log, apiKey, model, Ok(text), parse);
            g.called && g.error.None? && g.st.questions == Some([])
  {
    NoMatchGenerations(parse, text);
  }

  // ---------------------------------------------------------------------------------------------
  // aqchat.py: form, save, reset and generation

  /** The aqchat.py form's widgets. */
  datatype AqForm = AqForm(name: string, email: string, phone: string, yearsExp: int,
                           positions: string, location: string, techStackRaw: string)

  /** The aqchat.py candidate: stripped text, the comma lists parsed, and the raw tech-stack
      text kept as typed. */
  function AqCandidate(f: AqForm): (c: Dict)
    ensures PiiAreStrings(c)
    ensures c.desiredPositions == Some(StrList(CommaList(f.positions)))
    ensures c.techStack == Some(StrList(CommaList(f.techStackRaw)))
    ensures c.techStackRaw == Some(JStr(f.techStackRaw))
  {
    Empty.(name := Some(JStr(Strip(f.name))), email := Some(JStr(Strip(f.email))),
           phone := Some(JStr(Strip(f.phone))), yearsExp := Some(JNum(f.yearsExp)),
           desiredPositions := Some(StrList(CommaList(f.positions))),
           location := Some(JStr(Strip(f.location))),
           techStack := Some(StrList(CommaList(f.techStackRaw))),
           techStackRaw := Some(JStr(f.techStackRaw)))
  }

  /** Every entry of both comma lists is a stripped, non-empty, comma-free piece, and a list
      typed as comma-joined comma-free items reads back as those items, stripped, blanks
      dropped. */
  lemma AqListsClean(f: AqForm, items: seq<string>)
    requires |items| >= 1 && forall k :: 0 <= k < |items| ==> ',' !in items[k]
    ensures var c := AqCandidate(f);
            forall k :: 0 <= k < |c.techStack.value.items| ==>
              var x := c.techStack.value.items[k].s; x != [] && Strip(x) == x && ',' !in x
    ensures f.techStackRaw == Join(items, ',') ==>
              AqCandidate(f).techStack == Some(StrList(StripNonBlank(items)))
  {
    CommaListOfJoin(items);
  }

  /** The strings of a decoded list, when all its items are strings. */
  function Strs(items: seq<Json>): (r: Option<seq<string>>)
    ensures r.Some? <==> forall k :: 0 <= k < |items| ==> items[k].JStr?
    ensures r.Some? ==> |r.value| == |items| && forall k :: 0 <= k < |items| ==> r.value[k] == items[k].s
  {
    if forall k :: 0 <= k < |items| ==> items[k].JStr? then
      Some(seq(|items|, k requires 0 <= k < |items| && items[k].JStr? => items[k].s))
    else None
  }

  /** The one-character strings of a text, which is what iterating a Python string gives. */
  function Letters(s: string): (r: seq<string>)
    ensures |r| == |s| && forall k :: 0 <= k < |s| ==> r[k] == [s[k]]
  {
    seq(|s|, k requires 0 <= k < |s| => [s[k]])
  }

  /** `",".join(candidate.get(key, []))`: a missing key or an empty dict joins nothing, a list
      of strings is joined, a string is joined letter by letter, a list with a non-string and a
      null, bool or number raise `TypeError`. */
  function CommaJoined(v: Option<Json>): (r: Result<string, PyError>)
    ensures v.None? ==> r == Ok([])
    ensures v.Some? && v.value.JStr? ==> r == Ok(Join(Letters(v.value.s), ','))
    ensures v.Some? && v.value.JArr? ==> (r.Ok? <==> Strs(v.value.items).Some?)
    ensures v.Some? && v.value.JArr? && r.Ok? ==> r.value == Join(Strs(v.value.items).value, ',')
    ensures v.Some? && v.value.JArr? && r.Raised? ==> r.error == TypeError
    ensures v == Some(JObj(map[])) ==> r == Ok([])
    ensures v.Some? && (v.value.JNull? || v.value.JBool? || v.value.JNum?) ==> r == Raised(TypeError)
  {
    match v
    case None => Ok([])
    case Some(JStr(s)) => Ok(Join(Letters(s), ','))
    case Some(JArr(items)) => if Strs(items).Some? then Ok(Join(Strs(items).value, ',')) else Raised(TypeError)
    case Some(JObj(fields)) => if fields == map[] then Ok([]) else Raised(TypeError)
    case Some(_) => Raised(TypeError)
  }

  /** A stored list of strings is joined back as it was. */
  lemma CommaJoinedList(xs: seq<string>)
    ensures CommaJoined(Some(StrList(xs))) == Ok(Join(xs, ','))
  {
    assert Strs(StrList(xs).items).value == xs;
  }

  /** The aqchat.py form's initial values as written: the tech-stack text is rebuilt with
      `",".join` from the raw text saved at submission, one letter per item. */
  function AqPrefillAsWritten(c: Dict): (r: Result<AqForm, PyError>)
    ensures r.Ok? <==> (c.yearsExp.None? || IntOf(c.yearsExp.value).Ok?)
                       && CommaJoined(c.desiredPositions).Ok? && CommaJoined(c.techStackRaw).Ok?
    ensures r.Ok? ==> r.value.techStackRaw == CommaJoined(c.techStackRaw).value
  {
    var years := if c.yearsExp.None? then Ok(0) else IntOf(c.yearsExp.value);
    if years.Raised? then Raised(years.error)
    else match CommaJoined(c.desiredPositions)
      case Raised(e) => Raised(e)
      case Ok(positions) =>
        match CommaJoined(c.techStackRaw)
        case Raised(e) => Raised(e)
        case Ok(tech) =>
          Ok(AqForm(TextDefault(c.name), TextDefault(c.email), TextDefault(c.phone), years.value,
                    positions, TextDefault(c.location), tech))
  }

  /** The initial values with the tech-stack text shown as it was typed. */
  function AqPrefill(c: Dict): (r: Result<AqForm, PyError>)
    ensures r.Ok? <==> (c.yearsExp.None? || IntOf(c.yearsExp.value).Ok?) && CommaJoined(c.desiredPositions).Ok?
    ensures r.Ok? ==> r.value.techStackRaw == TextDefault(c.techStackRaw)
  {
    var years := if c.yearsExp.None? then Ok(0) else IntOf(c.yearsExp.value);
    if years.Raised? then Raised(years.error)
    else match CommaJoined(c.desiredPositions)
      case Raised(e) => Raised(e)
      case Ok(positions) =>
        Ok(AqForm(TextDefault(c.name), TextDefault(c.email), TextDefault(c.phone), years.value,
                  positions, TextDefault(c.location), TextDefault(c.techStackRaw)))
  }

  /** Submitting the form again unchanged, with its initial values read from the saved
      candidate, saves the same candidate again. */
  lemma AqResubmitKeepsCandidate(f: AqForm)
    ensures AqPrefill(AqCandidate(f)).Ok?
    ensures AqCandidate(AqPrefill(AqCandidate(f)).value) == AqCandidate(f)
  {
    var c := AqCandidate(f);
    CommaJoinedList(CommaList(f.positions));
    CommaListIdempotent(f.positions);
    StripIdempotent(f.name);
    StripIdempotent(f.email);
    StripIdempotent(f.phone);
    StripIdempotent(f.location);
  }

  /** The comma lists of the two texts in the example below. */
  lemma GoCommaLists()
    ensures Join(Letters("Go"), ',') == "G,o"
    ensures CommaList("Go") == ["Go"] && CommaList("G,o") == ["G", "o"]
  {
    assert Letters("Go") == ["G", "o"];
    StripUntrimmed("Go");
    StripUntrimmed("G");
    StripUntrimmed("o");
    CommaListOfJoin(["Go"]);
    StripNonBlankKeepsClean(["Go"]);
    CommaListOfJoin(["G", "o"]);
    StripNonBlankKeepsClean(["G", "o"]);
  }

  /** As written, a tech stack typed as "Go" comes back as "G,o", and submitting the form
      again saves the two items "G" and "o" instead of "Go". */
  lemma AqTechStackSplitsLetters(f: AqForm)
    requires f.techStackRaw == "Go"
    ensures AqPrefillAsWritten(AqCandidate(f)).Ok?
    ensures AqPrefillAsWritten(AqCandidate(f)).value.techStackRaw == "G,o"
    ensures AqCandidate(f).techStack == Some(StrList(["Go"]))
    ensures AqCandidate(AqPrefillAsWritten(AqCandidate(f)).value).techStack == Some(StrList(["G", "o"]))
  {
    CommaJoinedList(CommaList(f.positions));
    GoCommaLists();
  }

  /** What an aqchat.py rerun with the form leaves behind. */
  datatype AqOutcome = AqOutcome(st: State, log: seq<Saved>, called: bool, error: Option<PyError>)

  /** aqchat.py on "Save & Start Mini Interview": store and save the candidate, reset the
      interview, load the chain if the key is absent, and only with a chain call the service and
      parse its reply, re-raising on a failed match. */
  function AqSubmit(st: State, f: AqForm, submitted: bool, h: string -> string, salt: string, now: string,
                    log: seq<Saved>, apiKey: string, model: string,
                    reply: Result<string, PyError>, parse: Parser): (r: AqOutcome)
    ensures !submitted ==> r == AqOutcome(st, log, false, None)
    ensures submitted ==>
              && r.st.candidate == Some(AqCandidate(f))
              && r.log == log + [AnonymizeAq(AqCandidate(f), h, salt, now)]
              && r.st.currentQ == Some(0) && r.st.answers == Some([])
              && r.st.chain == Some(ChainFor(st, apiKey, model))
              && r.st.messages == st.messages && r.st.skills == st.skills
    ensures r.called <==> submitted && ChainFor(st, apiKey, model).Some?
    ensures submitted && r.error.Some? ==> r.st.questions == Some([])
    ensures submitted ==> r.st.questions.Some? && |r.st.questions.value| <= MaxQuestions
    ensures r.called && reply.Raised? ==> r.error == Some(reply.error) && r.st.questions == Some([])
    ensures r.called && reply.Ok? ==>
              var p := GenerationParseAq(parse, reply.value);
              && (p.Ok? && QuestionsOf(p.value).Ok? ==>
                    r.st.questions == Some(QuestionsOf(p.value).value) && r.error.None?)
              && (p.Raised? ==> r.error == Some(p.error) && r.st.questions == Some([]))
              && (p.Ok? && QuestionsOf(p.value).Raised? ==>
                    r.error == Some(QuestionsOf(p.value).error) && r.st.questions == Some([]))
  {
    if !submitted then AqOutcome(st, log, false, None)
    else
      var c := AqCandidate(f);
      var chain := ChainFor(st, apiKey, model);
      var st1 := st.(candidate := Some(c), questions := Some([]), answers := Some([]), currentQ := Some(0),
                     chain := Some(chain));
      var log1 := log + [AnonymizeAq(c, h, salt, now)];
      if chain.None? then AqOutcome(st1, log1, false, None)
      else match reply
        case Raised(e) => AqOutcome(st1, log1, true, Some(e))
        case Ok(text) =>
          var g := StoreQuestions(st1, GenerationParseAq(parse, text));
          AqOutcome(g.st, log1, true, g.error)
  }

  /** An aqchat.py submission keeps the state invariant. */
  lemma AqSubmitKeepsValid(st: State, f: AqForm, submitted: bool, h: string -> string, salt: string, now: string,
                           log: seq<Saved>, apiKey: string, model: string,
                           reply: Result<string, PyError>, parse: Parser)
    requires Store.Valid(st)
    ensures Store.Valid(AqSubmit(st, f, submitted, h, salt, now, log, apiKey, model, reply, parse).st)
  {
    var r := AqSubmit(st, f, submitted, h, salt, now, log, apiKey, model, reply, parse);
    if submitted {
      FreshValid(r.st.questions.value);
    }
  }

  /** With neither a strict parse nor a brace slice in the reply, aqchat.py re-raises the
      `JSONDecodeError`, reports it, and the questions stay empty. */
  lemma AqNoMatchRaises(st: State, f: AqForm, h: string -> string, salt: string, now: string,
                        log: seq<Saved>, apiKey: string, model: string, text: string, parse: Parser)
    requires ChainFor(st, apiKey, model).Some?
    requires TwoStage(parse, Strip(text), text) == NoMatch
    ensures var r := AqSubmit(st, f, true, h, salt, now, log, apiKey, model, Ok(text), parse);
            r.called && r.error == Some(JsonDecodeError) && r.st.questions == Some([])
  {
    NoMatchGenerations(parse, text);
  }

  /** In aqchat.py a `None` stored for a missing API key is never replaced: "Clear Chat" keeps
      it and every later submission reuses it, so the service is never called again in that
      session. In app.py "Clear Chat" deletes it, so the next submission with a key loads one. */
  lemma StoredNoChainPersists(st: State, f: AqForm, h: string -> string, salt: string, now: string,
                              log: seq<Saved>, apiKey: string, model: string,
                              reply: Result<string, PyError>, parse: Parser)
    requires st.chain == Some(None)
    ensures WithDefaults(ClearAq(st)).chain == Some(None)
    ensures var r := AqSubmit(st, f, true, h, salt, now, log, apiKey, model, reply, parse);
            !r.called && r.st.chain == Some(None)
    ensures apiKey != "" ==> ChainFor(WithDefaults(ClearApp(st)), apiKey, model).Some?
  {
  }

  // ---------------------------------------------------------------------------------------------
  // Evaluation

  /** What the evaluation section shows. */
  datatype EvalView =
    | Hidden              // the gate is closed
    | Warned              // aqchat.py: the chain is `None`
    | Failed(error: PyError)  // an exception was caught and reported
    | Unparsed            // aqchat.py: "Could not parse evaluation JSON"
    | NothingShown        // the heading only: the parsed value is falsy or missing
    | Shown(rows: seq<Json>, average: Json)  // one block per result, then the average

  /** What `enumerate(...)` followed by `item.get(...)` makes of the `"results"` value: a list of
      dicts gives its dicts in order; iterating a string or a dict yields strings, so a non-empty
      one raises `AttributeError` at the first `.get`, as does a list holding a non-dict; null, a
      number or a bool cannot be iterated and raise `TypeError`. */
  function ResultRows(x: Json): (r: Result<seq<Json>, PyError>)
    ensures r.Ok? <==> (x.JArr? && forall k :: 0 <= k < |x.items| ==> x.items[k].JObj?)
                       || x == JStr([]) || x == JObj(map[])
    ensures r.Ok? ==> forall k :: 0 <= k < |r.value| ==> r.value[k].JObj?
    ensures r.Ok? && x.JArr? ==> r.value == x.items
    ensures r.Ok? && !x.JArr? ==> r.value == []
    ensures (x.JNull? || x.JBool? || x.JNum?) <==> r == Raised(TypeError)
    ensures r.Raised? && !(x.JNull? || x.JBool? || x.JNum?) ==> r.error == AttributeError
  {
    match x
    case JNull => Raised(TypeError)
    case JBool(_) => Raised(TypeError)
    case JNum(_) => Raised(TypeError)
    case JStr(s) => if s == [] then Ok([]) else Raised(AttributeError)
    case JObj(fields) => if fields == map[] then Ok([]) else Raised(AttributeError)
    case JArr(items) =>
      if forall k :: 0 <= k < |items| ==> items[k].JObj? then Ok(items) else Raised(AttributeError)
  }

  /** The display step shared by both pages once a value was parsed: a falsy value shows
      nothing; a dict shows its result rows and its `"final_average_score"` (None when absent)
      unless walking the results raises; `.get` on anything else raises `AttributeError`. */
  function Display(v: Json): (r: EvalView)
    ensures r == NothingShown <==> !Truthy(v)
    ensures r.Shown? <==> Truthy(v) && v.JObj? && ResultRows(Get(v.fields, "results", JArr([]))).Ok?
    ensures r.Shown? ==> r.rows == ResultRows(Get(v.fields, "results", JArr([]))).value
                         && r.average == Get(v.fields, "final_average_score", JNull)
    ensures Truthy(v) && !v.JObj? ==> r == Failed(AttributeError)
    ensures Truthy(v) && v.JObj? && ResultRows(Get(v.fields, "results", JArr([]))).Raised? ==>
              r == Failed(ResultRows(Get(v.fields, "results", JArr([]))).error)
    ensures r.Shown? || r == NothingShown || r.Failed?
  {
    if !Truthy(v) then NothingShown
    else if !v.JObj? then Failed(AttributeError)
    else match ResultRows(Get(v.fields, "results", JArr([])))
      case Raised(e) => Failed(e)
      case Ok(rows) => Shown(rows, Get(v.fields, "final_average_score", JNull))
  }

  /** An evaluation in the format the prompt asks for is shown row by row with its average. */
  lemma DocumentedEvaluationShown(rows: seq<Json>, average: Json)
    requires forall k :: 0 <= k < |rows| ==> rows[k].JObj?
    ensures Display(JObj(map["results" := JArr(rows), "final_average_score" := average]))
            == Shown(rows, average)
  {
    var v := JObj(map["results" := JArr(rows), "final_average_score" := average]);
    assert "results" in v.fields;
    assert Get(v.fields, "results", JArr([])) == JArr(rows);
    assert Get(v.fields, "final_average_score", JNull) == average;
  }

  /** A dict without `"results"` shows no rows, only its average. */
  lemma MissingResultsShowsAverage(average: Json)
    ensures Display(JObj(map["final_average_score" := average])) == Shown([], average)
  {
    var v := JObj(map["final_average_score" := average]);
    assert "results" !in v.fields;
  }

  /** A dict whose `"results"` is a number cannot be iterated, and one whose results hold a
      number fails at `.get`: both are caught and reported instead of shown. */
  lemma MalformedResultsFail(n: int)
    ensures Display(JObj(map["results" := JNum(n)])) == Failed(TypeError)
    ensures Display(JObj(map["results" := JArr([JNum(n)])])) == Failed(AttributeError)
  {
    var v := JObj(map["results" := JNum(n)]);
    assert Get(v.fields, "results", JArr([])) == JNum(n);
    var w := JObj(map["results" := JArr([JNum(n)])]);
    assert Get(w.fields, "results", JArr([])) == JArr([JNum(n)]);
    assert !w.fields["results"].items[0].JObj?;
  }

  /** `evaluate_answers` of ui/interview_flow.py: behind the gate, the service is called through
      the chain (a missing chain raises `AttributeError`, which is caught) and its reply parsed
      with the `None` fallback. */
  function EvaluateApp(s: Session, chain: Option<Chain>, reply: Result<string, PyError>, parse: Parser): (r: EvalView)
    ensures r == Hidden <==> !EvalGate(s)
    ensures EvalGate(s) && chain.None? ==> r == Failed(AttributeError)
    ensures EvalGate(s) && chain.Some? && reply.Ok? && EvaluationParse(parse, reply.value) == Ok(None)
            ==> r == NothingShown
    ensures EvalGate(s) && chain.Some? && reply.Raised? ==> r == Failed(reply.error)
    ensures EvalGate(s) && chain.Some? && reply.Ok? && EvaluationParse(parse, reply.value).Raised?
            ==> r == Failed(EvaluationParse(parse, reply.value).error)
    ensures EvalGate(s) && chain.Some? && reply.Ok? && EvaluationParse(parse, reply.value).Ok?
            && EvaluationParse(parse, reply.value).value.Some?
            ==> r == Display(EvaluationParse(parse, reply.value).value.value)
  {
    if !EvalGate(s) then Hidden
    else if chain.None? then Failed(AttributeError)
    else match reply
      case Raised(e) => Failed(e)
      case Ok(text) =>
        match EvaluationParse(parse, text)
        case Raised(e) => Failed(e)
        case Ok(None) => NothingShown
        case Ok(Some(v)) => Display(v)
  }

  /** aqchat.py's evaluation: behind its own gate, a `None` chain is warned about, and a reply
      without any JSON is reported as unparsable instead of being passed over in silence. */
  function EvaluateAq(s: Session, chain: Option<Chain>, reply: Result<string, PyError>, parse: Parser): (r: EvalView)
    ensures r == Hidden <==> !EvalGateAq(s)
    ensures EvalGateAq(s) && chain.None? ==> r == Warned
    ensures EvalGateAq(s) && chain.Some? && reply.Ok? && EvaluationParse(parse, reply.value) == Ok(None)
            ==> r == Unparsed
    ensures EvalGateAq(s) && chain.Some? && reply.Raised? ==> r == Failed(reply.error)
    ensures EvalGateAq(s) && chain.Some? && reply.Ok? && EvaluationParse(parse, reply.value).Raised?
            ==> r == Failed(EvaluationParse(parse, reply.value).error)
    ensures EvalGateAq(s) && chain.Some? && reply.Ok? && EvaluationParse(parse, reply.value).Ok?
            && EvaluationParse(parse, reply.value).value.Some?
            ==> r == Display(EvaluationParse(parse, reply.value).value.value)
  {
    if !EvalGateAq(s) then Hidden
    else if chain.None? then Warned
    else match reply
      case Raised(e) => Failed(e)
      case Ok(text) =>
        match EvaluationParse(parse, text)
        case Raised(e) => Failed(e)
        case Ok(None) => Unparsed
        case Ok(Some(v)) => Display(v)
  }

  /** A reply that parses to the prompt's documented format reaches the results table with every
      row and the average, in both front ends, once their gates are open. */
  lemma DocumentedReplyShown(s: Session, chain: Chain, text: string, parse: Parser,
                             rows: seq<Json>, average: Json)
    requires EvalGate(s) && EvalGateAq(s)
    requires forall k :: 0 <= k < |rows| ==> rows[k].JObj?
    requires parse(text) == Some(JObj(map["results" := JArr(rows), "final_average_score" := average]))
    ensures EvaluateApp(s, Some(chain), Ok(text), parse) == Shown(rows, average)
    ensures EvaluateAq(s, Some(chain), Ok(text), parse) == Shown(rows, average)
  {
    DocumentedEvaluationShown(rows, average);
  }

  /** A reply holding no brace slice that the strict parse also rejects is passed over by
      ui/interview_flow.py and reported by aqchat.py. */
  lemma EvaluationNoMatch(s: Session, chain: Chain, text: string, parse: Parser)
    requires EvalGate(s) && EvalGateAq(s)
    requires parse(text).None? && forall i, j :: !BraceMatch(text, i, j)
    ensures EvaluateApp(s, Some(chain), Ok(text), parse) == NothingShown
    ensures EvaluateAq(s, Some(chain), Ok(text), parse) == Unparsed
  {
  }

  // ---------------------------------------------------------------------------------------------
  // End to end

  /** A reply object holding two questions gives both. */
  lemma TwoQuestionsKept(q1: Json, q2: Json)
    ensures QuestionsOf(JObj(map["questions" := JArr([q1, q2])])) == Ok([q1, q2])
  {
  }

  /** Two displayable questions and two answers reach the evaluation. */
  lemma TwoAnswersReachEvaluation(q1: Json, q2: Json, a1: string, a2: string)
    requires Askable(q1) && Askable(q2)
    ensures EvalGate(AnswerAll(Session([q1, q2], 0, []), [a1, a2]))
  {
    var n := AskableCount([q1, q2]);
    assert n == 2;
    EvaluationReachedIff([q1, q2], [a1, a2]);
  }

  /** app.py end to end: an acceptable form, a chain, and a reply that parses to two
      displayable questions lead, after two answers, to the evaluation. */
  lemma AppInterviewReachesEvaluation(st: State, f: FormInput, choices: seq<string>, h: string -> string, salt: string, now: string,
                                      log: seq<Saved>, apiKey: string, model: string, text: string,
                                      parse: Parser, q1: Json, q2: Json, a1: string, a2: string)
    requires |choices| == |SessionSkills(st)|
    requires Store.Valid(st) && Acceptable(Edited(st, f, choices)) && ChainFor(st, apiKey, model).Some?
    requires parse(Strip(text)) == Some(JObj(map["questions" := JArr([q1, q2])]))
    requires Askable(q1) && Askable(q2)
    ensures var g := AppSubmit(st, f, choices, true, h, salt, now, log, apiKey, model, Ok(text), parse).0;
            Ready(g.st) && SessionOf(g.st) == Session([q1, q2], 0, [])
    ensures var g := AppSubmit(st, f, choices, true, h, salt, now, log, apiKey, model, Ok(text), parse).0;
            EvalGate(AnswerAll(SessionOf(g.st), [a1, a2]))
  {
    var form := SubmitForm(st, f, choices, true, h, salt, now, log);
    assert form.accepted;
    var chain := ChainFor(st, apiKey, model);
    assert ChainFor(form.st, apiKey, model) == chain;
    var st1 := form.st.(chain := Some(chain));
    var v := JObj(map["questions" := JArr([q1, q2])]);
    assert GenerationParseApp(parse, text) == Ok(v);
    TwoQuestionsKept(q1, q2);
    var g := GenerateApp(form.st, true, apiKey, model, Ok(text), parse);
    assert g == StoreQuestions(st1, Ok(v));
    assert g.st == st1.(questions := Some([q1, q2]));
    assert AppSubmit(st, f, choices, true, h, salt, now, log, apiKey, model, Ok(text), parse).0 == g;
    var s := SessionOf(g.st);
    assert s == Session([q1, q2], 0, []);
    TwoAnswersReachEvaluation(q1, q2, a1, a2);
    assert EvalGate(AnswerAll(s, [a1, a2]));
  }
}
