/**
 The interview session: the generated questions, the index of the question being
 asked, and the answers collected so far, with the answer step and the two
 evaluation gates the source uses.
 */
module Interview {
  import opened Base
  import opened Json

  /** One recorded answer: `{"q": question, "a": text}`. */
  datatype Answer = Answer(q: Json, a: string)

  /** The `questions`, `current_q` and `answers` entries of the session state. */
  datatype Session = Session(questions: seq<Json>, currentQ: nat, answers: seq<Answer>)

  /** The state every candidate submission and every cleared session starts from. */
  const Fresh := Session([], 0, [])

  /** The guard of the answer step: a question is due (ui/interview_flow.py:5, aqchat.py:170). */
  predicate CanAnswer(s: Session)
    ensures CanAnswer(s) <==> s.currentQ < |s.questions|
    ensures Valid(s) ==> (CanAnswer(s) <==> |s.answers| < |s.questions|)
  {
    |s.questions| > 0 && s.currentQ < |s.questions|
  }

  /** `q['question']`: the text of a generated question. Subscripting a dict without the key
      raises `KeyError`; subscripting any other decoded value with a string raises `TypeError`. */
  function QuestionText(q: Json): (r: Result<Json, PyError>)
    ensures r.Ok? <==> q.JObj? && "question" in q.fields
    ensures r.Ok? ==> r.value == q.fields["question"]
    ensures q.JObj? && "question" !in q.fields ==> r == Raised(KeyError)
    ensures !q.JObj? ==> r == Raised(TypeError)
  {
    match q
    case JObj(fields) => if "question" in fields then Ok(fields["question"]) else Raised(KeyError)
    case _ => Raised(TypeError)
  }

  /** A question can be displayed: its text is read without raising. */
  predicate Askable(q: Json) {
    QuestionText(q).Ok?
  }

  /** `ask_questions` up to the answer button: nothing when no question is due, otherwise the
      current question's text, or the exception that aborts the page before the button. */
  function ShowQuestion(s: Session): (r: Result<Option<Json>, PyError>)
    ensures r == Ok(None) <==> !CanAnswer(s)
    ensures r.Ok? && r.value.Some? <==> CanAnswer(s) && Askable(s.questions[s.currentQ])
    ensures r.Raised? <==> CanAnswer(s) && !Askable(s.questions[s.currentQ])
  {
    if !CanAnswer(s) then Ok(None)
    else match QuestionText(s.questions[s.currentQ])
      case Ok(t) => Ok(Some(t))
      case Raised(e) => Raised(e)
  }

  /** The "Submit Answer" button is on the page. */
  predicate ButtonShown(s: Session)
    ensures ButtonShown(s) ==> CanAnswer(s)
    ensures ButtonShown(s) <==> ShowQuestion(s).Ok? && ShowQuestion(s).value.Some?
  {
    CanAnswer(s) && Askable(s.questions[s.currentQ])
  }

  /** "Submit Answer": record the current question with the answer text and move on. When no
      button is on the page (no question due, or the page raised while showing it) the event
      cannot happen and nothing changes. */
  function SubmitAnswer(s: Session, text: string): (r: Session)
    ensures !ButtonShown(s) ==> r == s
    ensures ButtonShown(s) ==>
              && r.questions == s.questions
              && r.currentQ == s.currentQ + 1
              && |r.answers| == |s.answers| + 1
              && r.answers[..|s.answers|] == s.answers
              && r.answers[|s.answers|] == Answer(s.questions[s.currentQ], text)
  {
    if ButtonShown(s) then
      Session(s.questions, s.currentQ + 1, s.answers + [Answer(s.questions[s.currentQ], text)])
    else s
  }

  /** The evaluation gate of ui/interview_flow.py: questions exist, the index has passed the
      last of them, and at least one answer was recorded. */
  predicate EvalGate(s: Session)
    ensures Valid(s) ==> (EvalGate(s) <==> |s.questions| > 0 && |s.answers| == |s.questions|)
  {
    |s.questions| > 0 && s.currentQ >= |s.questions| && |s.answers| > 0
  }

  /** The evaluation gate of aqchat.py, which assumes exactly two questions. */
  predicate EvalGateAq(s: Session)
    ensures Valid(s) && |s.questions| < 2 ==> !EvalGateAq(s)
  {
    s.currentQ >= 2 && |s.answers| > 0
  }

  /** The session invariant: one answer per question asked so far, in question order,
      and never past the end of the questions. */
  ghost predicate Valid(s: Session) {
    && |s.answers| == s.currentQ <= |s.questions|
    && forall k :: 0 <= k < |s.answers| ==> s.answers[k].q == s.questions[k]
  }

  /** A reset session is valid, and so is one that has just been given new questions. */
  lemma FreshValid(qs: seq<Json>)
    ensures Valid(Fresh) && Valid(Session(qs, 0, []))
  {
  }

  /** Answering keeps the invariant. */
  lemma SubmitKeepsValid(s: Session, text: string)
    requires Valid(s)
    ensures Valid(SubmitAnswer(s, text))
  {
    if ButtonShown(s) {
      var r := SubmitAnswer(s, text);
      forall k | 0 <= k < |r.answers| ensures r.answers[k].q == r.questions[k] {
        if k < |s.answers| { assert r.answers[k] == r.answers[..|s.answers|][k]; }
      }
    }
  }

  /** The answer button and the evaluation are never offered in the same state. */
  lemma GatesExclusive(s: Session)
    ensures !(CanAnswer(s) && EvalGate(s))
  {
  }

  /** In a valid session exactly one of three things holds: there are no questions, a question
      is open, or every question has been answered and the evaluation gate is open. */
  lemma {:induction false} ValidPhases(s: Session)
    requires Valid(s)
    ensures |s.questions| == 0 || CanAnswer(s) || EvalGate(s)
    ensures EvalGate(s) <==> |s.questions| > 0 && s.currentQ == |s.questions|
  {
  }

  /** Answer the texts one after another. */
  function AnswerAll(s: Session, texts: seq<string>): Session
    decreases |texts|
  {
    if |texts| == 0 then s else AnswerAll(SubmitAnswer(s, texts[0]), texts[1..])
  }

  /** The answers paired with their questions, for the first `n` questions. */
  function Paired(qs: seq<Json>, texts: seq<string>, n: nat): (r: seq<Answer>)
    requires n <= |qs| && n <= |texts|
    ensures |r| == n && forall k :: 0 <= k < n ==> r[k] == Answer(qs[k], texts[k])
  {
    if n == 0 then [] else [Answer(qs[0], texts[0])] + Paired(qs[1..], texts[1..], n - 1)
  }

  /** How many questions, from the first on, can be displayed: the loop reaches at most these. */
  function AskableCount(qs: seq<Json>): (n: nat)
    ensures n <= |qs|
    ensures forall k :: 0 <= k < n ==> Askable(qs[k])
    ensures n < |qs| ==> !Askable(qs[n])
  {
    if |qs| == 0 || !Askable(qs[0]) then 0 else 1 + AskableCount(qs[1..])
  }

  /** Starting from freshly generated questions, answering a run of texts records one answer per
      question in order, and stops at the last question or at the first question that cannot
      be displayed, whichever comes first; the texts after that change nothing. */
  lemma AnswerAllFromStart(qs: seq<Json>, texts: seq<string>)
    ensures var limit := AskableCount(qs);
            var n := if |texts| < limit then |texts| else limit;
            AnswerAll(Session(qs, 0, []), texts) == Session(qs, n, Paired(qs, texts, n))
  {
    var limit := AskableCount(qs);
    AnswerAllFrom(qs, texts, 0, limit, []);
    assert qs[0..] == qs;
  }

  /** The generalisation of `AnswerAllFromStart` to a session that has answered `m` questions,
      where `limit` is the first question that cannot be displayed (or the end). */
  lemma {:induction false} AnswerAllFrom(qs: seq<Json>, texts: seq<string>, m: nat, limit: nat, prior: seq<Answer>)
    requires m <= limit <= |qs| && |prior| == m
    requires forall k :: m <= k < limit ==> Askable(qs[k])
    requires limit < |qs| ==> !Askable(qs[limit])
    decreases |texts|, 1
    ensures var n := if |texts| < limit - m then |texts| else limit - m;
            AnswerAll(Session(qs, m, prior), texts) == Session(qs, m + n, prior + Paired(qs[m..], texts, n))
  {
    if |texts| == 0 || m == limit {
      if m == limit {
        AnswerAllStuck(Session(qs, m, prior), texts);
      }
      assert prior + Paired(qs[m..], texts, 0) == prior;
    } else {
      AnswerAllStep(qs, texts, m, limit, prior);
    }
  }

  /** The inductive step of `AnswerAllFrom`: one answer recorded, then the rest. */
  lemma {:induction false} AnswerAllStep(qs: seq<Json>, texts: seq<string>, m: nat, limit: nat, prior: seq<Answer>)
    requires m < limit <= |qs| && |prior| == m && |texts| > 0
    requires forall k :: m <= k < limit ==> Askable(qs[k])
    requires limit < |qs| ==> !Askable(qs[limit])
    decreases |texts|, 0
    ensures var n := if |texts| < limit - m then |texts| else limit - m;
            AnswerAll(Session(qs, m, prior), texts) == Session(qs, m + n, prior + Paired(qs[m..], texts, n))
  {
    var n := if |texts| < limit - m then |texts| else limit - m;
    var prior' := prior + [Answer(qs[m], texts[0])];
    assert SubmitAnswer(Session(qs, m, prior), texts[0]) == Session(qs, m + 1, prior');
    AnswerAllFrom(qs, texts[1..], m + 1, limit, prior');
    var rest := Paired(qs[m + 1..], texts[1..], n - 1);
    assert qs[m..][1..] == qs[m + 1..];
    assert Paired(qs[m..], texts, n) == [Answer(qs[m], texts[0])] + rest;
    AppendAssoc(prior, Answer(qs[m], texts[0]), rest);
  }

  /** Appending one element, then a tail, is appending both at once. */
  lemma AppendAssoc<T>(a: seq<T>, x: T, b: seq<T>)
    ensures (a + [x]) + b == a + ([x] + b)
  {
  }

  /** Once no answer button is shown, further answer events change nothing. */
  lemma {:induction false} AnswerAllStuck(s: Session, texts: seq<string>)
    requires !ButtonShown(s)
    ensures AnswerAll(s, texts) == s
    decreases |texts|
  {
    if |texts| > 0 {
      AnswerAllStuck(s, texts[1..]);
    }
  }

  /** The interview_flow.py evaluation is reached from freshly generated questions exactly when
      every question can be displayed and at least as many answers are submitted: one question
      that is not a dict with a "question" key stalls the interview for good. */
  lemma EvaluationReachedIff(qs: seq<Json>, texts: seq<string>)
    ensures EvalGate(AnswerAll(Session(qs, 0, []), texts))
            <==> |qs| > 0 && AskableCount(qs) == |qs| && |texts| >= |qs|
  {
    AnswerAllFromStart(qs, texts);
  }

  /** With exactly two questions, the aqchat.py gate is the interview_flow.py gate. */
  lemma AqGateMatchesWithTwoQuestions(s: Session)
    requires Valid(s) && |s.questions| == 2
    ensures EvalGateAq(s) <==> EvalGate(s)
  {
  }

  /** As written, the aqchat.py gate never opens for a one-question interview: the single
      answer is recorded, no question is left to ask, and evaluation does not run. */
  lemma AqGateStallsOnOneQuestion(q: Json, text: string)
    requires Askable(q)
    ensures var s := SubmitAnswer(Session([q], 0, []), text);
            !CanAnswer(s) && !EvalGateAq(s) && EvalGate(s)
  {
  }

  /** The stall is permanent: no sequence of answer events opens the aqchat.py gate. */
  lemma AqGateNeverOpensOnOneQuestion(q: Json, texts: seq<string>)
    ensures !EvalGateAq(AnswerAll(Session([q], 0, []), texts))
  {
    AnswerAllFromStart([q], texts);
  }
}
