/** The questionnaire data reducer: one operation per action type it handles. Questionnaire-level
    actions go to their handlers; every other action goes to the steps reducer, which edits the
    step whose id the action names, in place in the list. */
module QuestionnaireReducer {
  import opened Js
  import opened QuestionnaireModel
  import N = NumericRanges
  import C = Choices
  import E = StepEdits
  import L = Languages

  datatype Op =
    | ChangeName(newName: string)
    | ToggleMode(mode: string)
    | AddLanguage(language: string, freshId: string)
    | RemoveLanguage(language: string)
    | SetDefaultLanguage(language: string)
    | ReorderLanguages(language: string, index: int)
    | AddStep(freshId: string)
    | ChangeStepTitle(stepId: string, newTitle: string)
    | ChangeStepType(stepId: string, stepType: string)
    | ChangeStepPromptSms(stepId: string, newPrompt: string)
    | ChangeStepPromptIvr(stepId: string, text: string, audioSource: string)
    | ChangeStepAudioIdIvr(stepId: string, newId: string)
    | ChangeStepStore(stepId: string, newStore: string)
    | DeleteStep(stepId: string)
    | AddChoice(stepId: string)
    | DeleteChoice(stepId: string, index: int)
    | ChangeChoice(stepId: string, choiceChange: C.ChoiceChange)
    | ChangeNumericRanges(stepId: string, minValue: JsValue, maxValue: JsValue, rangesDelimiters: string)
    | ChangeRangeSkipLogic(stepId: string, skipLogic: Option<string>, rangeIndex: int)
    | Other

  /** The actions the steps reducer routes through `changeStep`. */
  predicate Targeted(op: Op) {
    || op.ChangeStepTitle? || op.ChangeStepType? || op.ChangeStepPromptSms? || op.ChangeStepPromptIvr?
    || op.ChangeStepAudioIdIvr? || op.ChangeStepStore? || op.AddChoice? || op.DeleteChoice?
    || op.ChangeChoice? || op.ChangeNumericRanges? || op.ChangeRangeSkipLogic?
  }

  /** The edit of a targeted action on its step. A CHANGE_NUMERIC_RANGES whose boundaries fail
      the check on a step of another kind would add numeric fields to it; it is excluded. */
  predicate EditApplies(op: Op, step: Step) {
    op.ChangeNumericRanges? ==> step.kind.Numeric? || N.Materialises(op.minValue, op.maxValue, op.rangesDelimiters)
  }

  /** What the reducer needs of its caller: a targeted action names an existing step. */
  predicate Applicable(q: Questionnaire, op: Op) {
    Targeted(op) ==> HasStep(q.steps, op.stepId) && EditApplies(op, q.steps[FindStep(q.steps, op.stepId)])
  }

  /** The new step a targeted action computes, or the error it throws. */
  function EditStep(q: Questionnaire, op: Op, step: Step): (r: Outcome<Step>)
    requires Targeted(op) && EditApplies(op, step)
    ensures r.Done? ==> r.value.id == step.id
  {
    match op
    case ChangeStepTitle(_, title) => Done(E.ChangeTitle(step, title))
    case ChangeStepType(_, stepType) => E.ChangeType(step, stepType)
    case ChangeStepPromptSms(_, text) => E.ChangeSmsPrompt(step, q.defaultLanguage, text)
    case ChangeStepPromptIvr(_, text, audioSource) => E.ChangeIvrPrompt(step, q.defaultLanguage, text, audioSource)
    case ChangeStepAudioIdIvr(_, newId) => E.ChangeIvrAudioId(step, q.defaultLanguage, newId)
    case ChangeStepStore(_, store) => Done(E.ChangeStore(step, store))
    case AddChoice(_) => C.AddChoice(step)
    case DeleteChoice(_, index) => C.DeleteChoice(step, index)
    case ChangeChoice(_, change) =>
      (match C.ChoiceTexts(q.steps, change, q.defaultLanguage)
       case Thrown(e) => Thrown(e)
       case Done(texts) => C.ChangeChoice(step, change, texts, q.defaultLanguage))
    case ChangeNumericRanges(_, minValue, maxValue, delimiters) =>
      if step.kind.Numeric? then Done(N.ChangeNumericRanges(step, minValue, maxValue, delimiters))
      else Thrown("TypeError: step.ranges is undefined")
    case ChangeRangeSkipLogic(_, skipLogic, rangeIndex) => E.ChangeRangeSkipLogic(step, skipLogic, rangeIndex)
  }

  /** The data reducer on one action. */
  function Reduce(q: Questionnaire, op: Op): (r: Outcome<Questionnaire>)
    requires Applicable(q, op)
  {
    match op
    case ChangeName(newName) => Done(L.ChangeName(q, newName))
    case ToggleMode(mode) => Done(L.ToggleMode(q, mode))
    case AddLanguage(language, freshId) => L.AddLanguage(q, language, freshId)
    case RemoveLanguage(language) => L.RemoveLanguage(q, language)
    case SetDefaultLanguage(language) => Done(L.SetDefaultLanguage(q, language))
    case ReorderLanguages(language, index) => L.ReorderLanguages(q, language, index)
    case AddStep(freshId) => Done(q.(steps := q.steps + [E.NewMultipleChoiceStep(freshId)]))
    case DeleteStep(stepId) => Done(q.(steps := E.DeleteStep(q.steps, stepId)))
    case Other => Done(q)
    case _ =>
      var k := FindStep(q.steps, op.stepId);
      match EditStep(q, op, q.steps[k])
      case Thrown(e) => Thrown(e)
      case Done(step) => Done(q.(steps := q.steps[k := step]))
  }

  /** A targeted action replaces only the step with its id, at the same position: the number of
      steps, every other step and every questionnaire-level field are unchanged. */
  lemma TargetedReplacesOneStep(q: Questionnaire, op: Op)
    requires Targeted(op) && Applicable(q, op) && Reduce(q, op).Done?
    ensures var r := Reduce(q, op).value;
      var k := FindStep(q.steps, op.stepId);
      && r.(steps := q.steps) == q
      && |r.steps| == |q.steps|
      && r.steps[k].id == op.stepId
      && r.steps == q.steps[k := r.steps[k]]
  {
  }

  /** Unknown actions return the questionnaire unchanged. */
  lemma OtherIsIdentity(q: Questionnaire)
    ensures Reduce(q, Other) == Done(q)
  {
  }

  /** DELETE_STEP of the step ADD_STEP just appended, with a fresh id, restores the steps. */
  lemma {:induction false} DeleteAddedStep(q: Questionnaire, freshId: string)
    requires !HasStep(q.steps, freshId)
    ensures Reduce(q, AddStep(freshId)).Done?
    ensures Reduce(Reduce(q, AddStep(freshId)).value, DeleteStep(freshId)) == Done(q)
  {
    var step := E.NewMultipleChoiceStep(freshId);
    var added := q.(steps := q.steps + [step]);
    assert Reduce(q, AddStep(freshId)) == Done(added);
    E.DeleteAppendedStep(q.steps, step);
    assert Reduce(added, DeleteStep(freshId)) == Done(added.(steps := q.steps));
  }
}
