/** The questionnaire document as the reducer reads and writes it. A step is one loosely
    typed object in the source; here its fields shared by every kind (id, title, and the
    optional store and prompt) are separated from the kind-specific ones. */
module QuestionnaireModel {
  import opened Js

  /** The voice prompt of one language; `changeStepIvrAudioId` can leave `text` absent. */
  datatype IvrPrompt = IvrPrompt(text: Option<string>, audioSource: Option<string>, audioId: Option<string>)

  /** The prompt of a step in one language. */
  datatype LanguagePrompt = LanguagePrompt(sms: Option<string>, ivr: Option<IvrPrompt>, mobileweb: Option<string>)

  /** A step prompt, keyed by language code. */
  type Prompt = map<string, LanguagePrompt>

  /** The response tokens of a choice in one language. */
  datatype Responses = Responses(sms: Option<seq<string>>, ivr: Option<seq<string>>, mobileweb: Option<string>)

  datatype Choice = Choice(value: string, responses: map<string, Responses>, skipLogic: Option<string>)

  /** A numeric range: a null bound is open. Bounds may be NaN when the range text did not parse. */
  datatype Range = Range(from: Option<Num>, to: Option<Num>, skipLogic: Option<string>)

  datatype StepKind =
    | MultipleChoice(choices: seq<Choice>)
    | Numeric(minValue: Option<Num>, maxValue: Option<Num>, rangesDelimiters: Option<string>, ranges: seq<Range>)
    | Explanation(skipLogic: Option<string>)
    | Flag(disposition: string, skipLogic: Option<string>)
    | LanguageSelection(languageChoices: seq<Option<string>>)

  datatype Step = Step(id: string, title: string, store: Option<string>, prompt: Option<Prompt>, kind: StepKind)

  datatype Questionnaire = Questionnaire(
    id: Option<int>,
    projectId: int,
    name: string,
    modes: seq<string>,
    languages: seq<string>,
    defaultLanguage: string,
    activeLanguage: string,
    steps: seq<Step>)

  /** The prompt skeleton new steps are seeded with: always under the literal key 'en'. */
  function SeedPrompt(): (p: Prompt)
    ensures p.Keys == {"en"}
  {
    map["en" := LanguagePrompt(Some(""), Some(IvrPrompt(Some(""), Some("tts"), None)), None)]
  }

  /** `findIndex(steps, s => s.id == stepId)`: the first position with that id, or -1. */
  function FindStep(steps: seq<Step>, stepId: string): (r: int)
    ensures -1 <= r < |steps|
    ensures r == -1 <==> forall k :: 0 <= k < |steps| ==> steps[k].id != stepId
    ensures r >= 0 ==> steps[r].id == stepId && forall k :: 0 <= k < r ==> steps[k].id != stepId
  {
    if |steps| == 0 then -1
    else if steps[0].id == stepId then 0
    else
      var k := FindStep(steps[1..], stepId);
      if k == -1 then -1 else k + 1
  }

  predicate HasStep(steps: seq<Step>, stepId: string) {
    exists k :: 0 <= k < |steps| && steps[k].id == stepId
  }

  /** The values of the choices, in order. */
  function ValuesOf(choices: seq<Choice>): (r: seq<string>)
    ensures |r| == |choices| && forall k :: 0 <= k < |choices| ==> r[k] == choices[k].value
  {
    if choices == [] then [] else ValuesOf(choices[..|choices| - 1]) + [choices[|choices| - 1].value]
  }
}
