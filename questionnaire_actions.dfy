/** The questionnaire action creators: the action type names, the list of edits that trigger an
    autosave, and the CHANGE_CHOICE payload. */
module QuestionnaireActions {
  import opened Js
  import R = QuestionnaireReducer
  import C = Choices

  const FETCH := "QUESTIONNAIRE_FETCH"
  const RECEIVE := "QUESTIONNAIRE_RECEIVE"
  const CHANGE_NAME := "QUESTIONNAIRE_CHANGE_NAME"
  const TOGGLE_MODE := "QUESTIONNAIRE_TOGGLE_MODE"
  const ADD_STEP := "QUESTIONNAIRE_ADD_STEP"
  const DELETE_STEP := "QUESTIONNAIRE_DELETE_STEP"
  const CHANGE_STEP_TITLE := "QUESTIONNAIRE_CHANGE_STEP_TITLE"
  const CHANGE_STEP_TYPE := "QUESTIONNAIRE_CHANGE_STEP_TYPE"
  const CHANGE_STEP_PROMPT_SMS := "QUESTIONNAIRE_CHANGE_STEP_PROMPT_SMS"
  const CHANGE_STEP_PROMPT_IVR := "QUESTIONNAIRE_CHANGE_STEP_PROMPT_IVR"
  const CHANGE_STEP_STORE := "QUESTIONNAIRE_CHANGE_STEP_STORE"
  const ADD_CHOICE := "QUESTIONNAIRE_ADD_CHOICE"
  const DELETE_CHOICE := "QUESTIONNAIRE_DELETE_CHOICE"
  const CHANGE_CHOICE := "QUESTIONNAIRE_CHANGE_CHOICE"

  /** `AUTOSAVE`: the edits after which the questionnaire is saved. */
  function Autosave(): (types: seq<string>)
    ensures |types| == 12
    ensures FETCH !in types && RECEIVE !in types
    ensures forall i, j :: 0 <= i < j < |types| ==> types[i] != types[j]
  {
    [CHANGE_NAME, TOGGLE_MODE, ADD_STEP, DELETE_STEP, CHANGE_STEP_TITLE, CHANGE_STEP_TYPE,
     CHANGE_STEP_PROMPT_SMS, CHANGE_STEP_PROMPT_IVR, CHANGE_STEP_STORE, ADD_CHOICE, DELETE_CHOICE, CHANGE_CHOICE]
  }

  /** The type constant this file defines for an edit; the language, audio and numeric-range edits
      have none here (their names are undefined in this file). */
  function TypeOf(op: R.Op): Option<string> {
    match op
    case ChangeName(_) => Some(CHANGE_NAME)
    case ToggleMode(_) => Some(TOGGLE_MODE)
    case AddStep(_) => Some(ADD_STEP)
    case DeleteStep(_) => Some(DELETE_STEP)
    case ChangeStepTitle(_, _) => Some(CHANGE_STEP_TITLE)
    case ChangeStepType(_, _) => Some(CHANGE_STEP_TYPE)
    case ChangeStepPromptSms(_, _) => Some(CHANGE_STEP_PROMPT_SMS)
    case ChangeStepPromptIvr(_, _, _) => Some(CHANGE_STEP_PROMPT_IVR)
    case ChangeStepStore(_, _) => Some(CHANGE_STEP_STORE)
    case AddChoice(_) => Some(ADD_CHOICE)
    case DeleteChoice(_, _) => Some(DELETE_CHOICE)
    case ChangeChoice(_, _) => Some(CHANGE_CHOICE)
    case _ => None
  }

  /** Every edit with a type constant here is autosaved, and nothing else is. */
  lemma AutosavedEdits(op: R.Op)
    ensures (TypeOf(op).Some? && TypeOf(op).value in Autosave()) <==> TypeOf(op).Some?
    ensures TypeOf(op).None? <==>
      op.AddLanguage? || op.RemoveLanguage? || op.SetDefaultLanguage? || op.ReorderLanguages?
      || op.ChangeStepAudioIdIvr? || op.ChangeNumericRanges? || op.ChangeRangeSkipLogic? || op.Other?
  {
  }

  /** The `changeChoice` creator: the arguments copied verbatim into the payload, autocomplete off
      unless given. */
  function ChangeChoiceAction(stepId: string, index: int, response: string, smsValues: string, ivrValues: string,
                              skipLogic: Option<string>, autoComplete: Option<bool>): (op: R.Op)
    ensures op.ChangeChoice? && op.stepId == stepId
    ensures op.choiceChange.index == index && op.choiceChange.response == response
    ensures op.choiceChange.smsValues == smsValues && op.choiceChange.ivrValues == ivrValues
    ensures op.choiceChange.skipLogic == skipLogic
    ensures op.choiceChange.autoComplete <==> autoComplete == Some(true)
  {
    R.ChangeChoice(stepId, C.ChoiceChange(index, response, smsValues, ivrValues, skipLogic,
      if autoComplete.Some? then autoComplete.value else false))
  }
}
