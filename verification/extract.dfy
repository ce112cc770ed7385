/**
 Tolerant extraction of a JSON payload from completion-service text: a strict
 `json.loads` first, then the greedy, DOTALL `re.search(r"\{.*\}", text)` fallback,
 which the three source variants follow up differently when nothing matches.
 */
module Extract {
  import opened Base
  import opened Text
  import opened Json

  /** `\{.*\}` under DOTALL matches `s[i..j]` exactly: a '{', anything, then a '}'. */
  ghost predicate BraceMatch(s: string, i: int, j: int) {
    0 <= i && i + 2 <= j <= |s| && s[i] == '{' && s[j - 1] == '}'
  }

  /** The span `re.search` reports: the leftmost start admitting a match, and for that
      start the longest end (the greedy `.*` backtracks only as far as it must). */
  ghost predicate IsSearchResult(s: string, i: int, j: int) {
    && BraceMatch(s, i, j)
    && (forall i', j' :: BraceMatch(s, i', j') ==> i <= i')
    && (forall j' :: BraceMatch(s, i, j') ==> j' <= j)
  }

  /** The search computed directly: from the first '{' to just past the last '}'. */
  function BraceSearch(s: string): (r: Option<(nat, nat)>)
    ensures r.Some? ==> IsSearchResult(s, r.value.0, r.value.1)
    ensures r.None? <==> forall i, j :: !BraceMatch(s, i, j)
  {
    var first := FirstIndexOf(s, '{');
    var last := LastIndexOf(s, '}');
    BraceBounds(s);
    if first.Some? && last.Some? && first.value < last.value then
      assert BraceMatch(s, first.value, last.value + 1);
      Some((first.value, last.value + 1))
    else
      None
  }

  /** Every match starts at or after the first '{' and ends at or before one past the last '}'. */
  lemma BraceBounds(s: string)
    ensures forall i, j :: BraceMatch(s, i, j) ==>
              && FirstIndexOf(s, '{').Some? && FirstIndexOf(s, '{').value <= i
              && LastIndexOf(s, '}').Some? && j <= LastIndexOf(s, '}').value + 1
  {
    forall i, j | BraceMatch(s, i, j)
      ensures FirstIndexOf(s, '{').Some? && FirstIndexOf(s, '{').value <= i
      ensures LastIndexOf(s, '}').Some? && j <= LastIndexOf(s, '}').value + 1
    {
      assert s[i] in s && s[j - 1] in s;
    }
  }

  /** `match.group()`: the matched text, when there is a match. */
  function BraceSlice(s: string): (r: Option<string>)
    ensures r.Some? <==> exists a, b :: 0 <= a < b < |s| && s[a] == '{' && s[b] == '}'
    ensures r.Some? ==> exists i, j :: IsSearchResult(s, i, j) && r.value == s[i..j]
  {
    var m := BraceSearch(s);
    if m.Some? then
      assert BraceMatch(s, m.value.0, m.value.1);
      assert 0 <= m.value.0 < m.value.1 - 1 < |s|;
      Some(s[m.value.0..m.value.1])
    else
      assert forall a, b :: 0 <= a < b < |s| && s[a] == '{' ==> s[b] != '}' by {
        forall a, b | 0 <= a < b < |s| && s[a] == '{' ensures s[b] != '}' {
          assert !BraceMatch(s, a, b + 1);
        }
      }
      None
  }

  /** A JSON object wrapped in brace-free prose is recovered exactly by the fallback. */
  lemma SliceRecoversWrappedObject(prose: string, body: string, trailer: string)
    requires '{' !in prose && '}' !in prose && '{' !in trailer && '}' !in trailer
    requires |body| >= 2 && body[0] == '{' && body[|body| - 1] == '}'
    ensures BraceSlice(prose + body + trailer) == Some(body)
  {
    var s := prose + body + trailer;
    var i, j := |prose|, |prose| + |body|;
    assert BraceMatch(s, i, j);
    var r := BraceSlice(s);
    var i', j' :| IsSearchResult(s, i', j') && r.value == s[i'..j'];
    assert s[i..j] == body;
  }

  /** How the two-stage parse ended. */
  datatype Stage =
    | Strict(v: Json)    // `json.loads` accepted the text as a whole
    | Sliced(v: Json)    // it failed, and accepted the brace slice
    | SliceInvalid       // it failed, a brace slice exists, and `json.loads` raises on it
    | NoMatch            // it failed and no '{' precedes any '}'

  /** The common two-stage parse; `strictInput` is the text given to the first `json.loads`
      (the source strips it for question generation and not for evaluation). */
  function TwoStage(parse: Parser, strictInput: string, text: string): (r: Stage)
    ensures parse(strictInput).Some? ==> r == Strict(parse(strictInput).value)
    ensures parse(strictInput).None? ==> !r.Strict?
    ensures r.Sliced? || r.SliceInvalid? ==>
              forall i, j :: IsSearchResult(text, i, j) ==> parse(text[i..j]) == (if r.Sliced? then Some(r.v) else None)
    ensures r.NoMatch? <==> parse(strictInput).None? && forall i, j :: !BraceMatch(text, i, j)
  {
    match parse(strictInput)
    case Some(v) => Strict(v)
    case None =>
      var m := BraceSearch(text);
      if m.None? then NoMatch
      else
        var span := text[m.value.0..m.value.1];
        assert forall i, j :: IsSearchResult(text, i, j) ==> text[i..j] == span by {
          forall i, j | IsSearchResult(text, i, j) ensures text[i..j] == span {
            SearchResultUnique(text, i, j, m.value.0, m.value.1);
          }
        }
        match parse(span)
        case Some(v) => Sliced(v)
        case None => SliceInvalid
  }

  /** `re.search` has one answer. */
  lemma SearchResultUnique(s: string, i: int, j: int, i': int, j': int)
    requires IsSearchResult(s, i, j) && IsSearchResult(s, i', j')
    ensures i == i' && j == j'
  {
  }

  /** Question generation in aqchat.py: the bare `raise` re-raises the strict parse's
      `JSONDecodeError` when nothing matches. */
  function GenerationParseAq(parse: Parser, text: string): (r: Result<Json, PyError>)
    ensures parse(Strip(text)).Some? ==> r == Ok(parse(Strip(text)).value)
    ensures r == Raised(JsonDecodeError) <==> TwoStage(parse, Strip(text), text) in {SliceInvalid, NoMatch}
    ensures r.Ok? ==> r.value == TwoStage(parse, Strip(text), text).v
  {
    match TwoStage(parse, Strip(text), text)
    case Strict(v) => Ok(v)
    case Sliced(v) => Ok(v)
    case SliceInvalid => Raised(JsonDecodeError)
    case NoMatch => Raised(JsonDecodeError)
  }

  /** Question generation in app.py: no match decodes as the empty dict `{}`. */
  function GenerationParseApp(parse: Parser, text: string): (r: Result<Json, PyError>)
    ensures parse(Strip(text)).Some? ==> r == Ok(parse(Strip(text)).value)
    ensures r.Raised? <==> TwoStage(parse, Strip(text), text) == SliceInvalid
    ensures TwoStage(parse, Strip(text), text) == NoMatch ==> r == Ok(JObj(map[]))
  {
    match TwoStage(parse, Strip(text), text)
    case Strict(v) => Ok(v)
    case Sliced(v) => Ok(v)
    case SliceInvalid => Raised(JsonDecodeError)
    case NoMatch => Ok(JObj(map[]))
  }

  /** Evaluation in ui/interview_flow.py and aqchat.py: the unstripped text is parsed, and no
      match leaves the result `None`. */
  function EvaluationParse(parse: Parser, text: string): (r: Result<Option<Json>, PyError>)
    ensures parse(text).Some? ==> r == Ok(Some(parse(text).value))
    ensures r.Raised? <==> TwoStage(parse, text, text) == SliceInvalid
    ensures r == Ok(None) <==> parse(text).None? && forall i, j :: !BraceMatch(text, i, j)
  {
    match TwoStage(parse, text, text)
    case Strict(v) => Ok(Some(v))
    case Sliced(v) => Ok(Some(v))
    case SliceInvalid => Raised(JsonDecodeError)
    case NoMatch => Ok(None)
  }

  /** Both generation variants agree whenever a brace slice exists or the strict parse succeeds;
      they differ only on a failed match, where one raises and the other yields `{}`. */
  lemma GenerationVariantsAgreeExceptNoMatch(parse: Parser, text: string)
    ensures TwoStage(parse, Strip(text), text) != NoMatch ==>
              GenerationParseAq(parse, text) == GenerationParseApp(parse, text)
    ensures TwoStage(parse, Strip(text), text) == NoMatch ==>
              GenerationParseAq(parse, text) == Raised(JsonDecodeError) && GenerationParseApp(parse, text) == Ok(JObj(map[]))
  {
  }

  /** How many generated questions are kept (`[:2]`). */
  const MaxQuestions: nat := 2

  /** Python's `xs[:n]`. */
  function Take<T>(xs: seq<T>, n: nat): (r: seq<T>)
    ensures |r| == if |xs| < n then |xs| else n
    ensures r == xs[..|r|]
  {
    if |xs| <= n then xs else xs[..n]
  }

  /** A Python string indexes and slices like the list of its one-character strings. */
  function Chars(s: string): (r: seq<Json>)
    ensures |r| == |s| && forall k :: 0 <= k < |s| ==> r[k] == JStr([s[k]])
  {
    seq(|s|, k requires 0 <= k < |s| => JStr([s[k]]))
  }

  /** `q_json.get("questions", [])[:2]`. */
  function QuestionsOf(v: Json): (r: Result<seq<Json>, PyError>)
    ensures r.Ok? ==> |r.value| <= MaxQuestions
    ensures !v.JObj? <==> r == Raised(AttributeError)
    ensures v.JObj? && "questions" !in v.fields ==> r == Ok([])
    ensures v.JObj? && "questions" in v.fields && v.fields["questions"].JArr? ==>
              var xs := v.fields["questions"].items;
              r.Ok? && r.value <= xs && (|xs| >= MaxQuestions ==> |r.value| == MaxQuestions)
                && (|xs| <= MaxQuestions ==> r.value == xs)
    ensures r == Raised(TypeError) <==>
              v.JObj? && "questions" in v.fields && !v.fields["questions"].JArr? && !v.fields["questions"].JStr?
  {
    match v
    case JObj(fields) =>
      (match Get(fields, "questions", JArr([]))
       case JArr(items) => Ok(Take(items, MaxQuestions))
       case JStr(s) => Ok(Take(Chars(s), MaxQuestions))
       case _ => Raised(TypeError))
    case _ => Raised(AttributeError)
  }

  /** A response listing seven questions keeps the first two, without an error. */
  lemma SevenQuestionsTruncated(qs: seq<Json>)
    requires |qs| == 7
    ensures QuestionsOf(JObj(map["questions" := JArr(qs)])) == Ok([qs[0], qs[1]])
  {
    assert Take(qs, MaxQuestions) == qs[..2] == [qs[0], qs[1]];
  }

  /** With neither a strict parse nor a brace slice, app.py decodes `{}` and so stores no
      questions without raising, while aqchat.py re-raises the `JSONDecodeError`. */
  lemma NoMatchGenerations(parse: Parser, text: string)
    requires TwoStage(parse, Strip(text), text) == NoMatch
    ensures GenerationParseApp(parse, text).Ok?
    ensures QuestionsOf(GenerationParseApp(parse, text).value) == Ok([])
    ensures GenerationParseAq(parse, text) == Raised(JsonDecodeError)
  {
  }
}
