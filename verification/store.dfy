/**
 The Streamlit session state the interview pages keep between reruns: every key may be
 absent until the page's defaults set it. "Clear Chat" deletes keys, and the defaults
 that run right after it put the empty values back.
 */
module Store {
  import opened Base
  import opened Json
  import opened Candidate
  import opened Interview
  import opened Skills

  /** A completion chain built for a model; the service behind it is not modelled. */
  datatype Chain = Chain(model: string)

  /** `get_question_chain` (app.py) and `get_chain` (aqchat.py): no chain without an API key. */
  function LoadChain(apiKey: string, model: string): (r: Option<Chain>)
    ensures r.None? <==> apiKey == ""
    ensures r.Some? ==> r.value.model == model
  {
    if apiKey == "" then None else Some(Chain(model))
  }

  /** The session-state keys the pages use, each `None` while absent. `chain` is absent,
      present and `None` (no API key at the time), or present with a chain. */
  datatype State = State(
    messages: Option<seq<string>>,
    candidate: Option<Dict>,
    questions: Option<seq<Json>>,
    currentQ: Option<nat>,
    answers: Option<seq<Answer>>,
    chain: Option<Option<Chain>>,
    skills: Option<seq<Skill>>)

  /** A new browser session: no key is set. */
  const Start := State(None, None, None, None, None, None, None)

  /** The five keys the defaults set are all present. */
  predicate Ready(st: State) {
    st.messages.Some? && st.candidate.Some? && st.questions.Some? && st.currentQ.Some? && st.answers.Some?
  }

  /** The interview part of a ready state. */
  function SessionOf(st: State): (s: Session)
    requires Ready(st)
  {
    Session(st.questions.value, st.currentQ.value, st.answers.value)
  }

  /** The state invariant: the defaults have run and the interview invariant holds. */
  ghost predicate Valid(st: State) {
    Ready(st) && Interview.Valid(SessionOf(st))
  }

  /** "Clear Chat" in app.py: deletes the conversation keys and the chain. */
  function ClearApp(st: State): (r: State)
    ensures r.messages.None? && r.candidate.None? && r.questions.None? && r.currentQ.None?
            && r.answers.None? && r.chain.None?
    ensures r.skills == st.skills
  {
    st.(messages := None, candidate := None, questions := None, currentQ := None, answers := None, chain := None)
  }

  /** "Clear Chat" in aqchat.py: deletes the conversation keys but keeps the chain. */
  function ClearAq(st: State): (r: State)
    ensures r.messages.None? && r.candidate.None? && r.questions.None? && r.currentQ.None?
            && r.answers.None?
    ensures r.chain == st.chain && r.skills == st.skills
  {
    st.(messages := None, candidate := None, questions := None, currentQ := None, answers := None)
  }

  /** The defaults at the top of both pages: each of the five keys that is absent gets its
      empty value; present keys are left alone. */
  function WithDefaults(st: State): (r: State)
    ensures Ready(r)
    ensures r.chain == st.chain && r.skills == st.skills
    ensures st.messages.Some? ==> r.messages == st.messages
    ensures st.candidate.Some? ==> r.candidate == st.candidate
    ensures st.questions.Some? ==> r.questions == st.questions
    ensures st.currentQ.Some? ==> r.currentQ == st.currentQ
    ensures st.answers.Some? ==> r.answers == st.answers
  {
    State(
      if st.messages.Some? then st.messages else Some([]),
      if st.candidate.Some? then st.candidate else Some(Empty),
      if st.questions.Some? then st.questions else Some([]),
      if st.currentQ.Some? then st.currentQ else Some(0),
      if st.answers.Some? then st.answers else Some([]),
      st.chain, st.skills)
  }

  /** On a ready state the defaults change nothing, so running them on every rerun is harmless. */
  lemma DefaultsIdempotent(st: State)
    ensures Ready(st) ==> WithDefaults(st) == st
    ensures WithDefaults(WithDefaults(st)) == WithDefaults(st)
  {
  }

  /** The empty values the defaults establish after a clear. */
  predicate Cleared(st: State) {
    Ready(st) && st.messages == Some([]) && st.candidate == Some(Empty) && SessionOf(st) == Fresh
  }

  /** app.py's "Clear Chat" followed by the defaults: empty conversation, empty candidate, a
      fresh interview, no chain; the skill rows survive. */
  lemma ClearAppResets(st: State)
    ensures var r := WithDefaults(ClearApp(st));
            Cleared(r) && Valid(r) && r.chain.None? && r.skills == st.skills
  {
    FreshValid([]);
  }

  /** aqchat.py's "Clear Chat" followed by the defaults: the same reset, but the chain (or the
      `None` stored for a missing API key) is kept. */
  lemma ClearAqResets(st: State)
    ensures var r := WithDefaults(ClearAq(st));
            Cleared(r) && Valid(r) && r.chain == st.chain && r.skills == st.skills
  {
    FreshValid([]);
  }

  /** A new browser session, after the defaults, is a cleared one. */
  lemma StartCleared()
    ensures Cleared(WithDefaults(Start)) && Valid(WithDefaults(Start))
  {
    FreshValid([]);
  }

  /** The "Submit Answer" event on the session state. */
  function AnswerEvent(st: State, text: string): (r: State)
    requires Ready(st)
    ensures Ready(r) && SessionOf(r) == SubmitAnswer(SessionOf(st), text)
    ensures r.messages == st.messages && r.candidate == st.candidate && r.chain == st.chain
            && r.skills == st.skills
  {
    var s := SubmitAnswer(SessionOf(st), text);
    st.(questions := Some(s.questions), currentQ := Some(s.currentQ), answers := Some(s.answers))
  }

  /** Answering keeps the state invariant. */
  lemma AnswerEventKeepsValid(st: State, text: string)
    requires Valid(st)
    ensures Valid(AnswerEvent(st, text))
  {
    SubmitKeepsValid(SessionOf(st), text);
  }
}
