# TalentScout hiring assistant: a Dafny model of its core logic

TalentScout is a Streamlit page that collects a candidate's details, saves an anonymised
record, asks a language model for two technical questions, collects the candidate's
answers and asks the model to evaluate them. There are two front ends:

- `app.py` with `ui/candidate_form.py` and `ui/interview_flow.py`;
- the single-file `aqchat.py`.

This project models the logic behind both pages as pure functions over immutable values:

- **`Text`** (`text.dfy`): Python's `str.strip`, `str.split(',')`, `','.join` and the
  comma-list comprehension `[p.strip() for p in s.split(",") if p.strip()]`.
- **`Json`** (`json.dfy`): decoded values, truthiness and `dict.get`. `json.loads` is a
  parameter `parse: string -> Option<Json>`.
- **`Extract`** (`extract.dfy`): the tolerant extraction of a JSON payload from model
  text. A strict parse runs first. The fallback is the greedy, DOTALL
  `re.search(r"\{.*\}")`, which is the span from the first `{` to the last `}`. The three
  variants differ when nothing matches: re-raise, `{}`, or `None`. The question list is
  then truncated to two.
- **`Interview`** (`interview.dfy`): the session made of `questions`, `current_q` and
  `answers`. It covers the answer step, its guard, the exception raised while displaying a
  question that is not a dict with a `"question"` key, and the two evaluation gates.
- **`Store`** (`store.dfy`): the session-state keys and the two "Clear Chat" buttons.
  app.py deletes the chain and aqchat.py keeps it. It also covers the defaults that refill
  the keys, and the answer event on the whole state.
- **`Skills`** (`skills.dfy`): the skill editor. It covers adding and removing rows, the
  custom-skill callback, the dropdown options that exclude skills taken by other rows, one
  render of the rows, and `final_skills`.
- **`Email`** (`email.dfy`): `re.match(r"[^@]+@[^@]+\.[^@]+", s)`, both as an executable
  test and as an independent shape predicate.
- **`CandidateForm`** (`form.dfy`): the form's accumulating validation, the candidate dict
  with its fresher/experience merge, and the widget values pre-filled from a saved
  candidate.
- **`Anonymize`** (`anonymize.dfy`): the two `anonymize_candidate` variants. The salted
  hash `_hash` is a parameter `h` applied to `salt + value`. The clock reading is a
  parameter `now`.
- **`Flows`** (`flows.dfy`): the page-level transitions. These are form submission
  (returning True or False, saving and resetting), question generation behind its guard,
  the aqchat.py submission, and the evaluation step of both pages. The completion service
  is a parameter: its joined reply, or the exception it raised. The candidate file is the
  sequence of saved records.

Where the source has a defect, the model holds both the behaviour as written and the
evidently intended behaviour. The rest of the model uses the intended one. See
"## Findings".

## Model

| member | source | states |
|---|---|---|
| Text.TrimStartShape | ui/candidate_form.py:144 | leading `strip()` removes exactly a whitespace prefix, and what is left does not start with whitespace |
| Text.TrimEndShape | ui/candidate_form.py:144 | trailing `strip()` removes exactly a whitespace suffix, and what is left does not end with whitespace |
| Text.StripShape | ui/candidate_form.py:144 | `s.strip()` is a contiguous middle part of `s`, with only whitespace cut from either end, that neither starts nor ends with whitespace |
| Text.Strip | ui/candidate_form.py:144 | definition of `s.strip()`, characterised by Text.StripShape |
| Text.StripUntrimmed | ui/candidate_form.py:161-169 | a string with no whitespace at either end is its own `strip()` |
| Text.StripEmptyIffBlank | ui/candidate_form.py:144-152 | the test `not s.strip()` holds exactly for whitespace-only strings |
| Text.StripIdempotent | ui/candidate_form.py:161-169 | stripping an already stripped value changes nothing |
| Text.StrippedBlankIsEmpty | ui/candidate_form.py:83-84 | a stripped value is blank only when it is empty |
| Text.FirstIndexOf | ui/interview_flow.py:36 | the first occurrence of a character, or none when it does not occur |
| Text.LastIndexOf | ui/interview_flow.py:36 | the last occurrence of a character, or none when it does not occur |
| Text.Split | aqchat.py:92 | `s.split(',')` yields at least one piece, and no piece contains the separator |
| Text.JoinSplit | aqchat.py:92 | joining the pieces of `s.split(',')` with ',' gives `s` back |
| Text.Join | aqchat.py:86 | definition of `sep.join(ps)`, whose inverse on separator-free pieces is split (Text.JoinSplit, Text.SplitJoin) |
| Text.SplitJoin | aqchat.py:86 | splitting a join of separator-free pieces gives the pieces back |
| Text.SplitNoSep | aqchat.py:92 | a string without the separator splits into itself alone |
| Text.SplitPrefix | aqchat.py:92 | splitting `p + sep + t`, with `p` separator-free, gives `p` followed by the pieces of `t` |
| Text.StripNonBlank | aqchat.py:92 | the comprehension keeps at most as many entries as there are pieces |
| Text.ContributesCons | aqchat.py:92 | a piece contributes to the comprehension exactly when it is the first piece or contributes to the rest |
| Text.StripNonBlankEntries | aqchat.py:92 | every entry of the comprehension is stripped and non-empty |
| Text.StripNonBlankMembers | aqchat.py:92 | a value is an entry exactly when some non-blank piece strips to it |
| Text.StripNonBlankAvoids | aqchat.py:92 | a character in no piece is in no entry |
| Text.CommaList | aqchat.py:92 | every entry of `tech_list` (and of `desired_positions`, line 98) is stripped, non-empty and comma-free |
| Text.StripInfix | aqchat.py:92 | whatever `strip()` keeps occurs contiguously in the original |
| Text.CommaListOfJoin | aqchat.py:92 | parsing comma-joined comma-free items gives the items stripped, blanks dropped, in their original order |
| Text.StripNonBlankKeepsClean | aqchat.py:92 | a list of stripped non-empty entries passes the comprehension unchanged |
| Text.CommaListIdempotent | aqchat.py:86 | re-joining a parsed comma list and parsing it again gives the same list |
| Json.Truthy | ui/interview_flow.py:39 | a decoded value is falsy exactly when it is `None`, `False`, `0`, `""`, `[]` or `{}`, as `if evaluation_json:` tests it; ui/candidate_form.py:26 applies the same test to the stored positions |
| Json.Get | app.py:59 | definition, stated case by case: `d.get(key, default)`: the stored value when the key is present, the default otherwise |
| Json.StrList | aqchat.py:92 | a list of strings as a decoded array, element by element |
| Candidate.GetField | core/utils.py:18-21 | definition, stated case by case: `candidate.get(key, default)` on a candidate dict: the value when the key is present, the default otherwise |
| Extract.BraceSearch | ui/interview_flow.py:36 | `re.search(r"\{.*\}", s, re.DOTALL)` computed as first `{` to last `}` is the leftmost-longest match, and there is none exactly when no match exists |
| Extract.BraceBounds | ui/interview_flow.py:36 | every match lies between the first `{` and the last `}` |
| Extract.BraceSlice | ui/interview_flow.py:36-37 | a slice exists iff some `{` precedes some `}`, and it is the text of the regex's match |
| Extract.SliceRecoversWrappedObject | aqchat.py:148-151 | an object wrapped in brace-free prose is recovered exactly |
| Extract.TwoStage | aqchat.py:145-154 | the strict parse wins when it succeeds; otherwise the slice decides; no match happens exactly when the strict parse fails and no `{` precedes a `}` |
| Extract.SearchResultUnique | ui/interview_flow.py:36 | `re.search` has a single answer |
| Extract.GenerationParseAq | aqchat.py:145-154 | aqchat.py re-raises `JSONDecodeError` exactly when the slice is invalid or absent |
| Extract.GenerationParseApp | app.py:54-58 | app.py yields `{}` when nothing matches and raises only on an invalid slice |
| Extract.EvaluationParse | ui/interview_flow.py:33-37 | the evaluation parse gives `None` exactly when the strict parse fails and nothing matches, and raises exactly on an invalid slice |
| Extract.GenerationVariantsAgreeExceptNoMatch | app.py:54-58 | the app.py and aqchat.py generation parses agree except on a failed match, where one gives `{}` and the other raises |
| Extract.Take | aqchat.py:156 | `xs[:n]` is the prefix of length `min(len(xs), n)` |
| Extract.Chars | aqchat.py:156 | a Python string indexes like the list of its one-character strings |
| Extract.QuestionsOf | app.py:59 | at most two questions are kept: the first two of a list, `AttributeError` on a non-dict, `[]` without the key, `TypeError` on an unsliceable value |
| Extract.SevenQuestionsTruncated | aqchat.py:156 | seven generated questions are silently cut to the first two |
| Extract.NoMatchGenerations | app.py:54-59 | with no strict parse and no slice, app.py stores no questions without raising, and aqchat.py raises `JSONDecodeError` |
| Interview.QuestionText | ui/interview_flow.py:7 | `q['question']` succeeds only on a dict with that key; otherwise `KeyError` or `TypeError` |
| Interview.CanAnswer | ui/interview_flow.py:5 | a question is due iff the index is below the number of questions (the emptiness test adds nothing); on a valid session iff fewer answers than questions are recorded; aqchat.py:170 uses the same guard |
| Interview.ButtonShown | ui/interview_flow.py:9 | the answer button is on the page iff the current question was shown without raising, so only when a question is due |
| Interview.ShowQuestion | ui/interview_flow.py:5-7 | nothing is shown iff no question is due; the page raises before the answer button iff the due question has no text |
| Interview.SubmitAnswer | ui/interview_flow.py:9-11 | with the button shown, exactly one `{q, a}` is appended for the current question, `current_q` grows by one, and the questions are unchanged; without it nothing changes |
| Interview.FreshValid | ui/candidate_form.py:181 | the reset session, and one that has just received new questions, satisfy `len(answers) == current_q <= len(questions)` |
| Interview.SubmitKeepsValid | ui/interview_flow.py:5-11 | every answer keeps `len(answers) == current_q <= len(questions)`, with each answer paired with its question |
| Interview.GatesExclusive | ui/interview_flow.py:5-16 | the answer gate and the evaluation gate are never both open |
| Interview.EvalGate | ui/interview_flow.py:16 | on a valid session the gate is open iff there are questions and every one has an answer |
| Interview.EvalGateAq | aqchat.py:182 | on a valid session with fewer than two questions the gate never opens |
| Interview.ValidPhases | ui/interview_flow.py:16 | a valid session has no questions, has a question open, or is finished with the evaluation gate open; the gate is open iff every question was answered |
| Interview.Paired | ui/interview_flow.py:10 | the first `n` recorded answers pair question `k` with answer text `k` |
| Interview.AskableCount | ui/interview_flow.py:7 | the number of leading questions that can be displayed: all before it can, and the next cannot |
| Interview.AnswerAllFromStart | ui/interview_flow.py:5-12 | after fresh questions, a run of answers records one answer per question in order, and stops at the end or at the first question that cannot be displayed |
| Interview.AnswerAllFrom | ui/interview_flow.py:5-12 | the same from any point of the interview |
| Interview.AnswerAllStep | ui/interview_flow.py:9-11 | one answer recorded, then the rest |
| Interview.AnswerAllStuck | ui/interview_flow.py:5-9 | once no answer button is shown, no further answer changes the session |
| Interview.EvaluationReachedIff | ui/interview_flow.py:16 | evaluation is reached iff there are questions, all of them can be displayed, and enough answers are given |
| Interview.AqGateMatchesWithTwoQuestions | aqchat.py:182 | with exactly two questions the aqchat.py gate is the interview_flow.py gate |
| Interview.AqGateStallsOnOneQuestion | aqchat.py:182 | a one-question interview, once answered, has no question left and still no evaluation |
| Interview.AqGateNeverOpensOnOneQuestion | aqchat.py:182 | no sequence of answers ever opens the aqchat.py gate for a one-question interview |
| Store.LoadChain | chains/question_chain.py:5-6 | definition, stated case by case: there is no chain exactly when the API key is empty |
| Store.ClearApp | app.py:17-20 | app.py's Clear Chat removes the five conversation keys and the chain, and keeps the skill rows |
| Store.ClearAq | aqchat.py:63-66 | aqchat.py's Clear Chat removes the five conversation keys but keeps the chain |
| Store.WithDefaults | app.py:22-26 | the defaults make all five keys present, leave present keys alone, and touch neither chain nor skills |
| Store.DefaultsIdempotent | aqchat.py:71-75 | running the defaults again on every rerun changes nothing |
| Store.ClearAppResets | app.py:17-26 | after Clear Chat and the defaults: empty messages, `candidate == {}`, a fresh interview, no chain, and the invariant holds |
| Store.ClearAqResets | aqchat.py:63-75 | the same reset for aqchat.py, with the chain kept as it was |
| Store.StartCleared | app.py:22-26 | a new browser session starts cleared and valid |
| Store.AnswerEvent | ui/interview_flow.py:9-11 | the answer event changes only the interview keys, as the answer step prescribes |
| Store.AnswerEventKeepsValid | ui/interview_flow.py:9-11 | the answer event keeps the state invariant |
| Skills.AddSkill | ui/candidate_form.py:73-74 | Add Skill appends exactly one empty row and keeps the others |
| Skills.RemoveSkill | ui/candidate_form.py:76-78 | Remove drops the last row, but never below one row |
| Skills.RemoveUndoesAdd | ui/candidate_form.py:73-78 | removing after adding restores the rows |
| Skills.UpdateCustomSkill | ui/candidate_form.py:81-85 | a blank entry leaves the rows unchanged; otherwise only row `idx` changes, to the stripped text as a custom skill |
| Skills.DropdownValues | ui/candidate_form.py:88 | `selected_dropdowns` holds exactly the values of the dropdown rows |
| Skills.Options | ui/candidate_form.py:95 | a row is offered the placeholder, then exactly the common skills not taken by another dropdown, keeping its own value |
| Skills.OptionsFrom | ui/candidate_form.py:95 | the filter keeps exactly the pool entries that are not selected or are the row's own value |
| Skills.Row | ui/candidate_form.py:102-106 | definition, stated case by case: the corrected dropdown step: a real choice makes a dropdown row with that value, and anything else empties the row |
| Skills.ChosenBefore | ui/candidate_form.py:107 | every earlier non-custom row's choice has been appended to `selected_dropdowns`; exactly those choices, in row order, by Skills.ChosenBeforeInOrder and Skills.ChosenBeforeOnlyChosen |
| Skills.DropdownIndices | ui/candidate_form.py:90-91 | the positions of the dropdown rows before `i`, strictly increasing, each a row that is not custom |
| Skills.DropdownIndicesComplete | ui/candidate_form.py:90-91 | every row before `i` that is not custom is listed |
| Skills.ChosenBeforeInOrder | ui/candidate_form.py:90-107 | `selected_dropdowns` grows by one choice per dropdown row, in row order: entry `j` is the choice of the `j`-th dropdown row |
| Skills.ChosenBeforeOnlyChosen | ui/candidate_form.py:107 | every appended value was chosen by an earlier dropdown row |
| Skills.RowsAsWritten | ui/candidate_form.py:90-107 | one render as written: custom rows untouched, the others through the as-written dropdown step |
| Skills.RowAsWritten | ui/candidate_form.py:102-106 | a real choice makes a dropdown row with that value; anything else makes the row "none" but keeps its old value |
| Skills.Rows | ui/candidate_form.py:90-107 | one render with the stale value cleared |
| Skills.RenderSkillRows | ui/candidate_form.py:88-107 | the render loop computes the as-written rows, and offers each row the options left by the dropdowns and by the earlier rows' choices |
| Skills.RenderKeepsDeselectedSkill | ui/candidate_form.py:102-106 | as written, a dropdown row set back to the placeholder keeps its old skill in `final_skills`; the corrected render empties it |
| Skills.InitialValid | ui/candidate_form.py:70-71 | the initial single empty row is well formed |
| Skills.AddKeepsValid | ui/candidate_form.py:73-74 | adding a row keeps the editor well formed |
| Skills.RemoveKeepsValid | ui/candidate_form.py:76-78 | removing a row keeps the editor well formed |
| Skills.UpdateCustomKeepsValid | ui/candidate_form.py:81-85 | the custom callback keeps the editor well formed |
| Skills.RowsKeepValid | ui/candidate_form.py:88-107 | dropdown de-duplication: when each row picks from what it is offered, no two dropdown rows hold the same skill after the corrected render |
| Skills.ChosenBeforeGrows | ui/candidate_form.py:107 | a row's choice stays visible to every later row |
| Skills.FinalSkills | ui/candidate_form.py:129 | `final_skills` holds only non-blank values, at most one per row |
| Skills.FinalSkillsAppend | ui/candidate_form.py:129 | `final_skills` is computed row by row |
| Skills.FinalSkillsMembers | ui/candidate_form.py:129 | a value is in `final_skills` exactly when some row holds it and it is not blank |
| Skills.AddKeepsFinalSkills | ui/candidate_form.py:73-74 | adding an empty row does not change `final_skills` (also line 129) |
| Skills.UpdateCustomReachesFinalSkills | ui/candidate_form.py:81-85 | a non-blank custom entry appears, stripped, in `final_skills` (also line 129) |
| Skills.DeselectKeepsStaleSkill | ui/candidate_form.py:105-106 | as written, a deselected "Python" row becomes "none" yet keeps "Python" in `final_skills` |
| Skills.StaleSkillDuplicates | ui/candidate_form.py:95-104 | as written, a stale row is still offered its old value, so two dropdowns can end up on the same skill |
| Skills.DeselectDropsSkill | ui/candidate_form.py:102-106 | with the stale value cleared, deselecting removes the skill from `final_skills` |
| Email.HasInnerDot | ui/candidate_form.py:146 | a '.' with at least one character on each side |
| Email.DomainSegment | ui/candidate_form.py:146 | the text after the first '@' up to the next '@' |
| Email.MatchesShaped | ui/candidate_form.py:146 | the executable test accepts only addresses with a prefix of the shape `[^@]+@[^@]+\.[^@]+` |
| Email.Matches | ui/candidate_form.py:146 | an accepted address starts with a character other than '@' and contains '@'; Email.MatchesIffShaped states it is exactly the `re.match` prefix semantics |
| Email.BeforeFirstAt | ui/candidate_form.py:146 | no '@' precedes the first one, so the local part `[^@]+` can run up to it |
| Email.SegmentHasNoAt | ui/candidate_form.py:146 | the stretch after an '@' up to the next '@' holds no '@', as `[^@]+` demands of the domain and suffix |
| Email.ShapedAtFirstAt | ui/candidate_form.py:146 | the '@' of any match is the address's first '@' |
| Email.ShapedAtSegment | ui/candidate_form.py:146 | the '@'-free stretch after the first '@' covers the domain and suffix of any match |
| Email.ShapedMatches | ui/candidate_form.py:146 | every address of the shape is accepted |
| Email.MatchesIffShaped | ui/candidate_form.py:146 | the executable test and `re.match` agree on every address |
| CandidateForm.DesiredPosition | ui/candidate_form.py:32-33 | definition, stated case by case: the placeholder "Select Position..." reads as no position |
| CandidateForm.Required | ui/candidate_form.py:144 | a required text field is reported exactly when it is blank |
| CandidateForm.EmailProblems | ui/candidate_form.py:145-147 | a blank email gives only "required" and skips the format check; otherwise the pattern decides |
| CandidateForm.PhoneProblems | ui/candidate_form.py:148-149 | a blank phone gives only "required"; otherwise a non-digit stripped phone gives "must be numeric" |
| CandidateForm.FieldProblems | ui/candidate_form.py:144-151 | the name, position and location checks report their problem exactly when it occurs |
| CandidateForm.SkillProblems | ui/candidate_form.py:152 | the skills check fails exactly when `final_skills` is empty |
| CandidateForm.ValidateReports | ui/candidate_form.py:141-152 | validation accumulates: every failing rule is reported and no other |
| CandidateForm.Validate | ui/candidate_form.py:141-152 | definition of the accumulating checks in source order; what it reports is stated by CandidateForm.ValidateReports and CandidateForm.ValidateAcceptsIff |
| CandidateForm.ValidateAcceptsIff | ui/candidate_form.py:154-157 | validation reports nothing exactly for the acceptable inputs |
| CandidateForm.ValidateAsWritten | ui/candidate_form.py:145-146 | as written, validation raises `NameError` exactly when the email is not blank |
| CandidateForm.AsWrittenNeverAccepts | ui/candidate_form.py:145-157 | as written, no input ever passes validation |
| CandidateForm.WellFormedEmailRaises | ui/candidate_form.py:146 | every well-formed email makes the code as written raise, while the corrected validation accepts a complete form |
| CandidateForm.CandidateKeys | ui/candidate_form.py:160-171 | a built candidate has every main field and string PII, and no raw tech-stack text |
| CandidateForm.BuildCandidate | ui/candidate_form.py:160-177 | definition of the candidate dict; its keys are stated by CandidateForm.CandidateKeys, CandidateForm.FresherBranch and CandidateForm.ExperienceBranch |
| CandidateForm.FresherBranch | ui/candidate_form.py:38-45 | a fresher field is in the candidate exactly when `years_exp == 0` (also lines 174-175) |
| CandidateForm.ExperienceBranch | ui/candidate_form.py:46-63 | an experience field is in the candidate exactly when `years_exp != 0` (also lines 176-177) |
| CandidateForm.IntOf | ui/candidate_form.py:15 | `int()` of a number is the number; of null, a list or a dict it raises `TypeError` (also line 52) |
| CandidateForm.IndexOf | ui/candidate_form.py:26 | `list.index`: the first position holding the value |
| CandidateForm.DefaultPositionIndex | ui/candidate_form.py:25-26 | the select box starts on the saved first position when it is an option, on the placeholder otherwise |
| CandidateForm.YearsInCompanyDefault | ui/candidate_form.py:49-54 | the years-in-company widget starts from `int()` of the saved value, or 0 when it is missing or `int()` raises |
| CandidateForm.EmptyTextIsNotInt | ui/candidate_form.py:50-54 | the missing-value default "" makes `int()` raise |
| CandidateForm.Prefill | ui/candidate_form.py:9-63 | the widget defaults raise exactly when `int(years_exp)` or the position lookup raises, in that order, and otherwise start from those values |
| CandidateForm.PrefillEmpty | ui/candidate_form.py:9-26 | an empty candidate starts every widget empty, at zero years and on the placeholder |
| CandidateForm.PositionRoundTrip | ui/candidate_form.py:26 | a saved position selects the same option again, and the saved placeholder selects the placeholder (also lines 32-33, 165) |
| CandidateForm.PrefillRestoresChoices | ui/candidate_form.py:12-31 | re-rendering from the saved candidate raises nothing and starts from the same years and position (also lines 164-165) |
| CandidateForm.PrefillRestoresText | ui/candidate_form.py:9-11 | re-rendering shows the stripped text that was entered (also lines 35, 135-137) |
| CandidateForm.PrefillRestoresFresher | ui/candidate_form.py:41-45 | a fresher's education details come back and the experience widgets start empty (also line 175) |
| CandidateForm.PrefillRestoresExperience | ui/candidate_form.py:48-63 | an experienced candidate's details come back and the education widgets start empty (also line 177) |
| Anonymize.AnonymizeCore | core/utils.py:8-37 | the record keeps the raw PII next to the salted digests, the identifier is the digest of email + phone, and it copies exactly the fresher and experience fields the candidate has |
| Anonymize.Digest | core/utils.py:5-6 | definition of `_hash(value)` as the parameter `h` applied to the salted value; Anonymize.DigestsDependOnlyOnPii states what the records depend on |
| Anonymize.AnonymizeAq | aqchat.py:27-38 | the aqchat.py record has no raw PII and no optional fields, and the same identifier |
| Anonymize.CoreKeys | core/utils.py:10-23 | a core record's fixed keys are the nine shared keys and the raw PII; never the links, the preferred location or the raw tech-stack text |
| Anonymize.CoreOptionalKeys | core/utils.py:25-35 | a fresher or experience field is in the record iff the candidate has it, with the same value |
| Anonymize.AqKeys | aqchat.py:28-38 | an aqchat.py record has exactly the nine listed keys |
| Anonymize.PassThrough | core/utils.py:18-22 | `years_exp`, `desired_positions` and `location` are copied unchanged (None when absent), and `created_at` is the clock reading plus "Z", in both variants |
| Anonymize.TechStackDefault | core/utils.py:21 | `tech_stack` defaults to the empty list when absent, in both variants |
| Anonymize.AqIsCoreWithoutPiiAndOptional | aqchat.py:27-38 | the aqchat.py record is the core record without raw PII and optional fields |
| Anonymize.DigestsDependOnlyOnPii | core/utils.py:5-17 | for a fixed salt, the identifier and digests depend only on name, email and phone |
| Anonymize.UnlistedFieldsIgnored | core/utils.py:10-35 | fields outside the listed keys never reach either record |
| Flows.SubmitForm | ui/candidate_form.py:140-185 | the skill editor runs on every call and its rewritten rows are stored in the session; the form returns True iff pressed and the edited input is acceptable; on True it stores the candidate, whose `tech_stack` is the final skills of those rows, appends its record to the log and resets the interview; on False only the skill rows change |
| Flows.Edited | ui/candidate_form.py:70-129 | the input the form validates: its skills are the session's rows (one blank row when the key is absent) rewritten by the select-box choices, and every other field is as entered |
| Flows.FirstRenderCreatesSkills | ui/candidate_form.py:70-71 | on a new session with no choice made, rendering the form stores one blank `none` row and returns False |
| Flows.SubmitFormAsWritten | ui/candidate_form.py:140-157 | as written, a pressed form with a non-blank email raises; otherwise the rewritten skill rows are stored, and a rejected form changes nothing else |
| Flows.FormAsWrittenNeverSaves | ui/candidate_form.py:140-185 | as written, the form never returns True and never saves a candidate; the only change it makes is the rewritten skill rows |
| Flows.SubmitFormKeepsValid | ui/candidate_form.py:179-183 | submitting keeps the state invariant |
| Flows.ChainFor | app.py:29-35 | definition, stated case by case: the stored chain is reused when its key is present, and loaded otherwise |
| Flows.StoreQuestions | app.py:59-63 | definition, stated case by case: parsed questions replace the stored ones; any exception leaves them and is reported |
| Flows.GenerateApp | app.py:28-63 | the service is called only after a True form and with a chain; a reply that parses stores exactly `QuestionsOf` of the `{}`-fallback parse; a raised reply, parse or `.get` is reported and leaves the questions; no other key but the chain changes |
| Flows.AppSubmitGuard | app.py:28-36 | question generation runs exactly when the form was accepted, with the skill rows as edited, and a chain exists |
| Flows.AppSubmit | app.py:28-63 | definition of one rerun from the form on; Flows.AppSubmitGuard and Flows.AppSubmitKeepsValid state its guard and invariant |
| Flows.GenerateAppKeepsValid | app.py:36-59 | generation keeps the state invariant when it follows the submission's reset |
| Flows.AppSubmitKeepsValid | app.py:28-63 | a rerun with submission and generation keeps the state invariant |
| Flows.AppNoMatchStoresNoQuestions | app.py:54-59 | with no strict parse and no slice, app.py stores `[]` and reports nothing |
| Flows.AqCandidate | aqchat.py:92-102 | the aqchat.py candidate holds both comma lists parsed and the raw tech-stack text as typed |
| Flows.AqListsClean | aqchat.py:92-98 | every tech-stack entry is stripped, non-empty and comma-free, and comma-joined items read back stripped and in order |
| Flows.Strs | aqchat.py:86 | the strings of a decoded list, present iff every item is a string |
| Flows.Letters | aqchat.py:88 | iterating a string gives its one-character strings |
| Flows.CommaJoined | aqchat.py:86-88 | `",".join(candidate.get(key, []))`: empty when missing or an empty dict, a list of strings joined, any other list `TypeError`, a string joined letter by letter, null, a bool or a number `TypeError` |
| Flows.CommaJoinedList | aqchat.py:86 | a stored list of strings is joined back as it was |
| Flows.AqPrefillAsWritten | aqchat.py:82-88 | as written, the form starts from the saved values, with the tech-stack text rebuilt from the raw text's letters |
| Flows.AqPrefill | aqchat.py:82-88 | the corrected initial values show the raw tech-stack text as it was typed |
| Flows.AqResubmitKeepsCandidate | aqchat.py:81-103 | with the corrected initial values, submitting the form again unchanged saves the same candidate |
| Flows.GoCommaLists | aqchat.py:88-92 | "Go" joined letter by letter is "G,o", which parses to two items |
| Flows.AqTechStackSplitsLetters | aqchat.py:88-101 | as written, a tech stack typed "Go" comes back as "G,o", and resubmitting saves "G" and "o" |
| Flows.AqSubmit | aqchat.py:91-164 | a submission stores and saves the candidate, resets the interview, loads a missing chain, calls the service only with a chain, stores exactly `QuestionsOf` of the re-raising parse, and on any raise reports it and leaves `[]` |
| Flows.AqSubmitKeepsValid | aqchat.py:91-164 | an aqchat.py submission keeps the state invariant |
| Flows.AqNoMatchRaises | aqchat.py:145-163 | with no strict parse and no slice, aqchat.py reports `JSONDecodeError` and the questions stay empty |
| Flows.StoredNoChainPersists | aqchat.py:63-66 | a `None` stored for a missing key survives aqchat.py's Clear Chat and every submission, so the service is never called; app.py's Clear Chat removes it (also lines 108-127) |
| Flows.Display | ui/interview_flow.py:39-45 | a falsy evaluation shows nothing; a truthy non-dict raises `AttributeError`; a dict shows its result rows and its `final_average_score` exactly when its `"results"` walk succeeds, and otherwise fails with that walk's error |
| Flows.ResultRows | ui/interview_flow.py:40-41 | `enumerate` over `"results"` then `item.get`: a list of dicts gives its rows, an empty string or dict gives none, null, a bool or a number raise `TypeError`, anything else `AttributeError` |
| Flows.DocumentedEvaluationShown | aqchat.py:194-228 | an evaluation in the format the prompt asks for is shown with all its rows and its average |
| Flows.MissingResultsShowsAverage | aqchat.py:220-228 | a dict without `"results"` shows no rows, only its average |
| Flows.MalformedResultsFail | aqchat.py:220-221 | a numeric `"results"` fails with `TypeError`, and results holding a number fail with `AttributeError` |
| Flows.EvaluateApp | ui/interview_flow.py:14-47 | the evaluation is hidden iff the gate is closed; a missing chain fails with `AttributeError`; a raising service or a raising parse fails with that error; no JSON in the reply shows nothing; a parsed evaluation is displayed as Flows.Display states |
| Flows.EvaluateAq | aqchat.py:182-228 | hidden iff the aqchat.py gate is closed; a `None` chain is warned about; a raising service or a raising parse fails with that error; no JSON in the reply is reported as unparsable; a parsed evaluation is displayed as Flows.Display states |
| Flows.DocumentedReplyShown | ui/interview_flow.py:31-45 | with both gates open, a reply parsing to the prompt's format reaches the results table with every row and the average, in ui/interview_flow.py and in aqchat.py (lines 194-228) alike |
| Flows.EvaluationNoMatch | ui/interview_flow.py:37-39 | a reply with no strict parse and no slice is passed over silently by ui/interview_flow.py and reported by aqchat.py |
| Flows.TwoQuestionsKept | app.py:59 | a reply object with two questions gives both |
| Flows.TwoAnswersReachEvaluation | ui/interview_flow.py:16 | two displayable questions and two answers open the evaluation gate |
| Flows.AppInterviewReachesEvaluation | app.py:28-66 | an acceptable form, a chain and a reply with two displayable questions lead, after two answers, to the evaluation |

## Left out

- The completion service, the prompts and `@st.cache_resource` are not modelled. The
  service's reply, or its exception, is a parameter, and the chain is a record of its model
  name. chains/eval_chain.py and core/llm_wrapper.py are not part of this model.
- `json.loads` is a parameter `parse`. The decoder itself is not modelled.
- The record's hashing is left abstract: `_hash` (SHA-256 of salt + value, cut to 16 hex
  characters) is a parameter `h` applied to `salt + value`, with no collision or length
  facts.
- `datetime.utcnow().isoformat()` is a parameter `now`.
- `save_candidate` is modelled as appending to a sequence of records. Reading and
  rewriting the file, resetting an unreadable file to `[]`, and concurrent writes are I/O.
- core/config.py (environment and directory set-up) is not part of this model.
- Streamlit rendering, the messages and headings shown, `st.rerun`, and the widgets
  themselves are not modelled. A `FormInput` or `AqForm` holds what the widgets return on
  submit, and the skill select boxes' choices are a parameter. The widget state that
  Streamlit keeps across reruns is not modelled either. That includes whether a keyed
  select box keeps showing its placeholder.
- The `number_input` bounds (0-80 years, 0-50 years in a company) are not enforced. Years
  are any `int`, and Streamlit's refusal of an out-of-range default is not modelled.
- Text.IsDigits: `str.isdigit` is read as the ASCII digits '0'-'9'. Python also accepts
  other Unicode digits.
- Json.Json: decoded numbers are integers only. JSON floats, and `int()` truncating them,
  are not modelled.
- CandidateForm.IntOf: text is read as an unsigned decimal after `strip()`. Python's `int()`
  also accepts a sign, underscores between digits and non-ASCII digits.
- CandidateForm.TextDefault: a saved value that is not a string pre-fills a text widget as
  "", where Streamlit would reject or convert it.
- Flows.Display: the rows printed before a failing `item.get` stay on the page in the source;
  the model reports only the failure. The markdown each row is rendered with is not modelled.
- Flows.SubmitFormAsWritten: when a pressed form raises `NameError`, the skill rows that the
  editor rewrote earlier in the same run stay in the session. The model returns only the error.
- Flows.CommaJoined: for a non-empty dict the model gives `TypeError`, where Python joins the
  dict's keys in insertion order, which a Dafny `map` does not record. No modelled flow stores
  a dict under `desired_positions` or `tech_stack_raw`.
- Flows.AqSubmit: when the service itself raises, the exception is reported. The model
  does not follow aqchat.py:164 further: there `st.text(full_response)` raises `NameError`
  on the unbound name and ends the rerun.
- The `messages` key and `EXIT_KEYWORDS` are only initialised by the source and never
  used. They are kept as a key of the state and otherwise ignored.

## Findings

| source | as written | input that shows it | evidently intended | confidence | as-written member | corrected member |
|---|---|---|---|---|---|---|
| ui/candidate_form.py:146 | `re.match` is called, but the module never imports `re`, so any non-blank email raises `NameError` and the form can never be submitted | a complete form with email "a@b.co" | the email is checked against `[^@]+@[^@]+\.[^@]+` and the form is accepted | not executed | CandidateForm.ValidateAsWritten, CandidateForm.AsWrittenNeverAccepts, Flows.FormAsWrittenNeverSaves | CandidateForm.Validate, CandidateForm.ValidateAcceptsIff, Flows.SubmitForm |
| aqchat.py:182 | the evaluation gate is `current_q >= 2 and answers`, assuming exactly two questions | a reply holding one question, answered once | evaluation runs once every question is answered (the gate of ui/interview_flow.py:16) | not executed | Interview.AqGateStallsOnOneQuestion, Interview.AqGateNeverOpensOnOneQuestion | Interview.ValidPhases, Interview.EvaluationReachedIff |
| ui/candidate_form.py:105-106 | a dropdown row set back to the placeholder becomes "none" but keeps its old value, which stays in `final_skills` and is still offered as the row's own option | rows [Python (dropdown)] with the choice "Select Skill..." | deselecting empties the row, so the skill leaves `final_skills` and de-duplication holds | plausible; it depends on Streamlit keeping the keyed select box on the placeholder across reruns; not executed | Skills.RenderSkillRows, Skills.RenderKeepsDeselectedSkill, Skills.StaleSkillDuplicates | Skills.Rows, Skills.RowsKeepValid, Skills.DeselectDropsSkill |
| aqchat.py:88 | the tech-stack text is pre-filled with `",".join(...)` of `tech_stack_raw`, which line 101 saves as a string, so the text is joined letter by letter | a tech stack typed as "Go", then the form submitted again | the raw text is shown as typed, so resubmitting saves the same candidate | not executed | Flows.AqPrefillAsWritten, Flows.AqTechStackSplitsLetters | Flows.AqPrefill, Flows.AqResubmitKeepsCandidate |
