# Ask questionnaire editor and survey views: a Dafny model

Ask is a web application for running surveys over SMS and voice calls. A survey follows a
questionnaire. The questionnaire editor is a Redux store in the browser. Every user edit is an
action, and a pure reducer turns the current questionnaire document into the next one. A validator
runs after every action and rebuilds the map of errors the editor shows next to each field. The
same fetch lifecycle (request, response, stale responses dropped) wraps the questionnaire store and
the other document stores.

This project models that core:

- the questionnaire document (steps of several kinds, prompts per language, choices with SMS and
  voice response tokens, numeric ranges with skip logic);
- every action of the questionnaire reducer, each with what it throws where the JavaScript code
  raises a TypeError;
- the validator, both as a specification (a list of errors grouped by path) and as the loops that
  fill the error map;
- the export of the questionnaire's texts for translation, the store values used for quotas, and
  the fetch lifecycle with its `shouldFetch` guard;
- the action creators that feed the reducer (autosave list, CHANGE_CHOICE payload, quota options);
- the smaller reducers for respondent groups, respondents and folders;
- the view logic that computes something: the numeric step editor, the cumulative respondents
  chart, the retries histogram, the chat and SMS simulators, the respondents table, the paging of
  the project and survey lists, the respondents step of the survey wizard, and the route paths.

JavaScript values are modelled explicitly where the code depends on them:

- `null`, numbers (integers or NaN) and strings (`Js.JsValue`);
- truthiness, loose equality, `trim`, `split`, `join` and `parseInt`;
- the index clamping of `slice` and `splice`;
- TypeErrors (`Js.Outcome` is `Done(value)` or `Thrown(message)`).

Objects that a method updates in place are classes: the folder table, the numeric step editor, the
chat footer, and the SMS simulator and its footer. Loops of the source are methods proved equal to
a specification function, and the properties are proved about those functions.

## Model

| member | source | states |
|---|---|---|
| Fetch.Initial | web/static/js/reducers/fetch.js:4-8 | a store starts not fetching, with no filter and no data |
| Fetch.DefaultFilter | web/static/js/reducers/fetch.js:10-13 | the filter holds both ids as integers, and a null id stays null |
| Fetch.DefaultFilterOfIntegers | web/static/js/reducers/fetch.js:10-13 | the filter of integer ids is exactly those ids |
| Fetch.StartFetch | web/static/js/reducers/fetch.js:41-56 | FETCH sets fetching and the new filter, and keeps the data only when the filter is the same as before |
| Fetch.Receive | web/static/js/reducers/fetch.js:26-39 | a document for the current filter is stored and ends the fetch; a document for any other filter leaves the state unchanged |
| Fetch.Pass | web/static/js/reducers/fetch.js:15-24 | other actions reach the data reducer only when there is data; the lifecycle fields are kept, and what the data reducer throws propagates |
| Fetch.FetchThenReceive | web/static/js/reducers/fetch.js:26-56 | a request followed by its response leaves the document stored and the fetch over |
| Fetch.StaleResponseDropped | web/static/js/reducers/fetch.js:26-56 | a response to a request that a request for another filter superseded is dropped; the state stays fetching, with no data |
| Fetch.RefetchKeepsData | web/static/js/reducers/fetch.js:41-56 | requesting the current filter again keeps the displayed document |
| Fetch.ShouldFetch | web/static/js/actions/questionnaire.js:65-67 | `shouldFetch`, the same predicate in the questionnaire and survey actions: Fetch.ShouldFetchOfIntegers proves it is false exactly when a fetch for the same project and id is under way |
| Fetch.ShouldFetchOfIntegers | web/static/js/actions/questionnaire.js:65-67 | no fetch is needed exactly when a fetch for the same project and id is under way |
| SurveyActions.ShouldFetchTable | test/js/reducers/survey.spec.js:30-34 | the five `shouldFetch` cases of the survey tests give the answers those tests expect |
| SurveyActions.OptionsFrom | web/static/js/actions/survey.js:109-117 | there is one option per quota variable name, holding the store values under that name or undefined |
| SurveyActions.SetQuotaVars | web/static/js/actions/survey.js:103-107 | the action carries the variables unchanged and the options of exactly their names |
| QuestionnaireActions.Autosave | web/static/js/actions/questionnaire.js:18-31 | the autosave list has twelve distinct action types and contains neither FETCH nor RECEIVE |
| QuestionnaireActions.AutosavedEdits | web/static/js/actions/questionnaire.js:3-31 | every edit whose type is defined in this file is autosaved; the language, audio-id and numeric-range edits have no type here |
| QuestionnaireActions.ChangeChoiceAction | web/static/js/actions/questionnaire.js:74-78 | the CHANGE_CHOICE payload copies every argument, and autocomplete is on only when it is given as true |
| QuestionnaireModel.SeedPrompt | web/static/js/reducers/questionnaire.js:279-315 | new steps get a prompt under the literal key 'en' only |
| QuestionnaireModel.FindStep | web/static/js/reducers/questionnaire.js:156-164 | the result is the first position with the id, or -1 exactly when no step has it |
| QuestionnaireReducer.EditStep | web/static/js/reducers/questionnaire.js:47-65 | an edit of a step never changes its id |
| QuestionnaireReducer.Reduce | web/static/js/reducers/questionnaire.js:11-45 | the data reducer's dispatch: TargetedReplacesOneStep proves a step action replaces only its step, OtherIsIdentity that an unknown action returns the questionnaire, and DeleteAddedStep that ADD_STEP then DELETE_STEP restores it |
| QuestionnaireReducer.TargetedReplacesOneStep | web/static/js/reducers/questionnaire.js:156-169 | a step action replaces only the first step with its id, at the same position; the other steps and the questionnaire fields are unchanged |
| QuestionnaireReducer.OtherIsIdentity | web/static/js/reducers/questionnaire.js:11-21 | an unknown action returns the questionnaire unchanged |
| QuestionnaireReducer.DeleteAddedStep | web/static/js/reducers/questionnaire.js:272-277 | ADD_STEP with a fresh id, then DELETE_STEP of that id, restores the questionnaire |
| StepEdits.NewMultipleChoiceStep | web/static/js/reducers/questionnaire.js:298-315 | the new step has the fresh id, an empty title and store, the seeded prompt, and no choices |
| StepEdits.ChangeTitle | web/static/js/reducers/questionnaire.js:218-223 | the title is stored verbatim and nothing else changes |
| StepEdits.ChangeStore | web/static/js/reducers/questionnaire.js:265-270 | the store is set verbatim and nothing else changes |
| StepEdits.ChangeSmsPrompt | web/static/js/reducers/questionnaire.js:171-182 | a step without a prompt throws; otherwise only the default-language SMS text changes, and a missing language entry is created |
| StepEdits.EditIvr | web/static/js/reducers/questionnaire.js:184-216 | a voice edit throws exactly when the default language has no prompt entry; otherwise only that entry's voice prompt changes |
| StepEdits.ChangeIvrPrompt | web/static/js/reducers/questionnaire.js:184-199 | the voice text and audio source are set, and the audio id is kept |
| StepEdits.ChangeIvrAudioId | web/static/js/reducers/questionnaire.js:201-216 | the audio id is set with source 'upload', and the text is kept |
| StepEdits.ChangeType | web/static/js/reducers/questionnaire.js:225-263 | only id, title, prompt and store survive; the new kind starts empty; any type other than multiple-choice and numeric throws 'unknown step type' |
| StepEdits.ChangeTypeIsIdempotent | web/static/js/reducers/questionnaire.js:225-263 | changing to the same type twice equals changing once |
| StepEdits.WithSkipLogic | web/static/js/reducers/questionnaire.js:732-747 | for an index inside the list, only that range's skip logic changes |
| StepEdits.ChangeRangeSkipLogic | web/static/js/reducers/questionnaire.js:732-747 | the edit throws exactly on a step without ranges; otherwise only the ranges change, and an indexed range gets the new skip logic |
| StepEdits.DeleteStep | web/static/js/reducers/questionnaire.js:152-154 | DELETE_STEP's filter never lengthens the list; DeleteStepKeeps proves it keeps exactly the steps with another id, DeleteStepAppend that it keeps their order |
| StepEdits.DeleteStepKeeps | web/static/js/reducers/questionnaire.js:152-154 | DELETE_STEP keeps exactly the steps with another id |
| StepEdits.DeleteStepCons | web/static/js/reducers/questionnaire.js:152-154 | the filter drops a first step exactly when it has the id |
| StepEdits.DeleteStepAppend | web/static/js/reducers/questionnaire.js:152-154 | deleting distributes over concatenation, so the order is kept |
| StepEdits.DeleteAbsentStep | web/static/js/reducers/questionnaire.js:152-154 | deleting an id that no step has changes nothing |
| StepEdits.DeleteAppendedStep | web/static/js/reducers/questionnaire.js:152-154 | deleting the id of a just-appended step with a new id gives back the earlier steps |
| Choices.TrimAll | web/static/js/reducers/questionnaire.js:148-150 | each part is trimmed, in order |
| Choices.NonEmpty | web/static/js/reducers/questionnaire.js:148-150 | only non-empty parts of the input remain |
| Choices.SplitValues | web/static/js/reducers/questionnaire.js:148-150 | every token is non-empty, has no comma, and has no blank at either end |
| Choices.TrimmedEnds | web/static/js/reducers/questionnaire.js:148-150 | a non-empty trimmed text starts and ends with a non-blank |
| Choices.TrimmedPartsAreClean | web/static/js/reducers/questionnaire.js:148-150 | the non-empty trimmed parts of a comma split are clean tokens |
| Choices.TrimAllOfClean | web/static/js/reducers/questionnaire.js:148-150 | trimming clean tokens leaves them unchanged |
| Choices.NonEmptyOfFilled | web/static/js/reducers/questionnaire.js:148-150 | filtering a list without empty texts leaves it unchanged |
| Choices.NonEmptyOfClean | web/static/js/reducers/questionnaire.js:148-150 | trimming and filtering clean tokens leaves them unchanged |
| Choices.SplitValuesOfJoin | web/static/js/reducers/questionnaire.js:148-150 | joining clean tokens with ',' and splitting again gives back the tokens |
| Choices.SplitValuesIsIdempotent | web/static/js/reducers/questionnaire.js:148-150 | splitting, joining and splitting again equals splitting once |
| Choices.FirstMatch | web/static/js/reducers/questionnaire.js:128-146 | the result is the first choice with the value in step-then-choice order, or none exactly when no choice has it |
| Choices.FirstChoice | web/static/js/reducers/questionnaire.js:128-146 | the result is the first choice index with the value, or -1 exactly when there is none |
| Choices.AutoCompleted | web/static/js/reducers/questionnaire.js:128-146 | the texts autocomplete copies: AutoComplete proves the scan computes it, FirstMatchIsUnique that it is the first match |
| Choices.ChoiceTexts | web/static/js/reducers/questionnaire.js:100-104 | the texts CHANGE_CHOICE parses: AutoCompleteCopiesTokens proves that under autocomplete with empty texts they are the first match's tokens |
| Choices.AutoComplete | web/static/js/reducers/questionnaire.js:128-146 | the scan with the `setted` flag returns the default-language tokens of the first match, or a TypeError when that match has none |
| Choices.FirstMatchIsUnique | web/static/js/reducers/questionnaire.js:128-146 | a match with no match before it is the first match |
| Choices.BlankChoice | web/static/js/reducers/questionnaire.js:67-84 | the added choice has an empty value, empty SMS and voice lists under 'en', and no skip logic |
| Choices.AddChoice | web/static/js/reducers/questionnaire.js:67-84 | ADD_CHOICE throws exactly on a step without choices; otherwise it appends a blank choice and changes nothing else |
| Choices.DeleteChoice | web/static/js/reducers/questionnaire.js:86-94 | DELETE_CHOICE removes the indexed choice; an index from -n to -2 removes the choice counted from the end; -1 puts every choice but the last before the whole list; an index at or past the end, below -n, or on no choices keeps the step; a step without choices throws |
| Choices.DeleteAddedChoice | web/static/js/reducers/questionnaire.js:67-94 | deleting the choice just added restores the step |
| Choices.ChangedChoice | web/static/js/reducers/questionnaire.js:99-126 | the new choice has the new value and skip logic, and under 'en' the parsed SMS and voice tokens; the other languages are kept |
| Choices.ChangeChoice | web/static/js/reducers/questionnaire.js:99-126 | CHANGE_CHOICE throws exactly when the step has no choice at the index; otherwise only that choice is replaced |
| Choices.AutoCompleteCopiesTokens | web/static/js/reducers/questionnaire.js:99-150 | with autocomplete on and empty texts, the new tokens are the clean tokens of the first matching choice, or none without a match |
| Languages.ChangeName | web/static/js/reducers/questionnaire.js:335-340 | the name is stored verbatim and nothing else changes |
| Languages.ToggleMode | web/static/js/reducers/questionnaire.js:317-333 | the mode is enabled exactly when it was disabled, it is appended when added, and every other mode is unchanged |
| Languages.ToggleModeTwice | web/static/js/reducers/questionnaire.js:317-333 | toggling a disabled mode twice restores the questionnaire |
| Languages.SetDefaultLanguage | web/static/js/reducers/questionnaire.js:441-449 | only the default language changes; the active language is not touched |
| Languages.NewLanguageSelectionStep | web/static/js/reducers/questionnaire.js:279-296 | the selection step offers a blank option, then the first language, then the second |
| Languages.AddOption | web/static/js/reducers/questionnaire.js:406-414 | the language is appended to the first step's options; throws when there are no steps or the first step is not a selection |
| Languages.RemoveOption | web/static/js/reducers/questionnaire.js:416-432 | the language's option is removed from the selection step, with the source's index -1 slicing for an absent option; throws with no steps |
| Languages.AddLanguage | web/static/js/reducers/questionnaire.js:342-358 | ADD_LANGUAGE: AddLanguageEffect proves a known code changes nothing and a new one is appended with the selection step prepended or extended |
| Languages.RemoveLanguage | web/static/js/reducers/questionnaire.js:360-380 | REMOVE_LANGUAGE: RemoveAbsentLanguage proves an unknown code changes nothing, and AddThenRemoveLanguage that it undoes ADD_LANGUAGE from one language |
| Languages.AddLanguageEffect | web/static/js/reducers/questionnaire.js:342-358 | a known code changes nothing; a new code is appended, and the selection step is either prepended (second language) or extended (third and later) |
| Languages.RemoveAbsentLanguage | web/static/js/reducers/questionnaire.js:360-380 | removing an unknown code changes nothing |
| Languages.AddThenRemoveLanguage | web/static/js/reducers/questionnaire.js:342-380 | from one language, adding a new language then removing it restores the questionnaire, selection step included |
| Languages.ReorderedChoices | web/static/js/reducers/questionnaire.js:382-404 | moving a present language permutes the options and puts it at the clamped index; an absent language leaves them as they are |
| Languages.ReorderLanguages | web/static/js/reducers/questionnaire.js:382-404 | the new state of REORDER_LANGUAGES: only the selection step's options change, and there is a throw when there are no steps |
| Languages.ChoicesArray.constructor | web/static/js/reducers/questionnaire.js:383-386 | the `languageChoices` array holds the given options |
| Languages.ReorderLanguagesAsWritten | web/static/js/reducers/questionnaire.js:382-404 | the splices work on the array the previous state holds: the result is REORDER_LANGUAGES' new state, and the previous state read through the array now equals it |
| Languages.PreviousStateReordered | web/static/js/reducers/questionnaire.js:386-392 | a state offering English then Spanish offers Spanish first after Spanish is moved to position 1 from it |
| NumericRanges.ParseBound | web/static/js/reducers/questionnaire.js:666-667 | a falsy bound (empty text, 0, NaN, null) becomes null; any other text is parsed and a non-zero integer is kept |
| NumericRanges.ParseDelimiters | web/static/js/reducers/questionnaire.js:672-675 | an empty text gives no delimiters; otherwise each comma-separated part is parsed |
| NumericRanges.Froms | web/static/js/reducers/questionnaire.js:696-705 | the lower bounds are the min (null when absent), then each delimiter |
| NumericRanges.FindRange | web/static/js/reducers/questionnaire.js:707-709 | the result is the first old range with the same bounds, or -1 exactly when there is none |
| NumericRanges.GenerateRanges | web/static/js/reducers/questionnaire.js:704-719 | there is one range per lower bound, each inherited from the first identical old range or fresh |
| NumericRanges.ChangeNumericRanges | web/static/js/reducers/questionnaire.js:662-730 | the edit changes only the numeric fields of the step |
| NumericRanges.CheckAscending | web/static/js/reducers/questionnaire.js:680-685 | the scan succeeds exactly when every value is below the next one |
| NumericRanges.BuildRanges | web/static/js/reducers/questionnaire.js:704-719 | the loop builds exactly the generated ranges |
| NumericRanges.AsBounds | web/static/js/reducers/questionnaire.js:696-705 | each checked value becomes a present bound |
| NumericRanges.BoundsFromValues | web/static/js/reducers/questionnaire.js:696-703 | prepending null without a min and dropping the max from the checked values gives the lower bounds |
| NumericRanges.Values | web/static/js/reducers/questionnaire.js:668-678 | the values checked for ascending order, [min?, ...delimiters, max?]: CollectValues proves the array pushes build them, and AscendingIsIncreasing, FromIsValue and MaxIsLastValue relate them to the ranges |
| NumericRanges.CollectValues | web/static/js/reducers/questionnaire.js:668-678 | the checked values are the min if any, the delimiters, and the max if any |
| NumericRanges.LowerBounds | web/static/js/reducers/questionnaire.js:696-703 | the array edits give exactly the lower bounds |
| NumericRanges.ApplyChangeNumericRanges | web/static/js/reducers/questionnaire.js:662-730 | the step-by-step computation equals the specification of CHANGE_NUMERIC_RANGES |
| NumericRanges.Inherit | web/static/js/reducers/questionnaire.js:707-718 | the range generated for a pair of bounds: InheritBounds proves it has those bounds and the skip logic of the first identical old range, or none |
| NumericRanges.InheritBounds | web/static/js/reducers/questionnaire.js:707-718 | a generated range has the requested bounds, and the skip logic of the first identical old range or none |
| NumericRanges.PendingEditKeepsRanges | web/static/js/reducers/questionnaire.js:687-694 | when the check fails, only min, max and the delimiter text change, and the old ranges are kept |
| NumericRanges.GeneratedBounds | web/static/js/reducers/questionnaire.js:704-719 | each generated range ends one below the next range's start, or at the max |
| NumericRanges.MaterialisedRanges | web/static/js/reducers/questionnaire.js:696-729 | when the check passes, the ranges run from the min through the delimiters to the max, each keeping the skip logic of an identical old range |
| NumericRanges.FromsIncrease | web/static/js/reducers/questionnaire.js:696-729 | in contiguous ranges, later lower bounds are not smaller |
| NumericRanges.ContiguousDisjoint | web/static/js/reducers/questionnaire.js:696-729 | no integer lies in two contiguous ranges |
| NumericRanges.ContiguousCovers | web/static/js/reducers/questionnaire.js:696-729 | an integer lies in some contiguous range exactly when it lies between the first start and the last end |
| NumericRanges.AscendingIncreases | web/static/js/reducers/questionnaire.js:680-685 | values that pass the neighbour check are in order at any distance |
| NumericRanges.AscendingIsIncreasing | web/static/js/reducers/questionnaire.js:680-685 | every pair of checked values is ordered |
| NumericRanges.FromIsValue | web/static/js/reducers/questionnaire.js:668-703 | each present lower bound is a checked value that comes before the max |
| NumericRanges.MaxIsLastValue | web/static/js/reducers/questionnaire.js:676-678 | the max is the last checked value |
| NumericRanges.BoundsOrdered | web/static/js/reducers/questionnaire.js:680-703 | ascending integer values give ordered lower bounds |
| NumericRanges.GeneratedIsContiguous | web/static/js/reducers/questionnaire.js:704-719 | ranges generated from ordered bounds are contiguous |
| NumericRanges.MaterialisedIsContiguous | web/static/js/reducers/questionnaire.js:662-730 | materialised ranges over integer boundaries are contiguous |
| NumericRanges.MaterialisedPartition | web/static/js/reducers/questionnaire.js:662-730 | each integer between min and max lies in exactly one new range, and no other integer lies in any |
| Validation.ContextOf | web/static/js/reducers/questionnaire.js:464-476 | SMS is on exactly when 'sms' is among the modes, voice exactly when 'ivr' is, and the default language is the questionnaire's |
| Validation.MessagesAt | web/static/js/reducers/questionnaire.js:572-575 | the messages at a path are exactly those of the errors reported there |
| Validation.CollectGroups | web/static/js/reducers/questionnaire.js:572-575 | adding errors one by one gives a path an entry exactly when an error is reported there, with its messages appended in report order |
| Validation.CollectAppend | web/static/js/reducers/questionnaire.js:572-575 | adding two lists of errors is adding one after the other |
| Validation.ReportedIff | web/static/js/reducers/questionnaire.js:572-575 | a message is in the rebuilt map at a path exactly when the error list reports it there |
| Validation.AddError | web/static/js/reducers/questionnaire.js:572-575 | `addError`: CollectOne proves one error appends its message at its path |
| Validation.Collect | web/static/js/reducers/questionnaire.js:572-575 | the errors added in turn: CollectGroups and ReportedIff prove a message is at a path exactly when reported there, in report order; CollectAppend that it distributes over concatenation |
| Validation.CollectOne | web/static/js/reducers/questionnaire.js:572-575 | adding one error is the `addError` update |
| Validation.FlattenMembers | web/static/js/reducers/questionnaire.js:478-482 | an error is in the concatenated blocks exactly when it is in one block |
| Validation.FlattenNext | web/static/js/reducers/questionnaire.js:478-482 | one more block appends its errors |
| Validation.FlattenAll | web/static/js/reducers/questionnaire.js:478-482 | the checks of all steps succeed exactly when every step's checks do |
| Validation.FlattenAllMembers | web/static/js/reducers/questionnaire.js:478-482 | when every step succeeds, an error is reported exactly when one step reports it |
| Validation.FlattenAllNext | web/static/js/reducers/questionnaire.js:478-482 | one more step either throws or appends its errors |
| Validation.FlattenAllThrown | web/static/js/reducers/questionnaire.js:478-482 | the first step that throws decides the outcome, whatever the later steps do |
| Validation.IndexedInjective | web/static/js/reducers/questionnaire.js:480 | paths `steps[i]...` built from different indices or suffixes are different |
| Validation.ValueCheck | web/static/js/reducers/questionnaire.js:546-548 | the value check reports only blank responses |
| Validation.TokenChecks | web/static/js/reducers/questionnaire.js:550-569 | the SMS and voice checks report only choice messages whose mode is on |
| Validation.ChoiceErrors | web/static/js/reducers/questionnaire.js:545-570 | `validateChoice` reports only its own messages, each only when its mode is on |
| Validation.ValueChecked | web/static/js/reducers/questionnaire.js:546-548 | a choice is reported with a blank response exactly when its value is blank |
| Validation.TokensChecked | web/static/js/reducers/questionnaire.js:550-569 | empty SMS tokens are reported exactly when SMS is on; empty voice tokens, or a voice token that is not digits, '#' or '*', exactly when voice is on |
| Validation.TokenDuplicates | web/static/js/reducers/questionnaire.js:524-528 | the inner loop's repeated tokens: TokenDuplicatesMembers proves a token is reported exactly when it is among the earlier tokens |
| Validation.TokenDuplicatesMembers | web/static/js/reducers/questionnaire.js:524-528 | a token is reported as repeated exactly when it is among the earlier tokens |
| Validation.DuplicatesAt | web/static/js/reducers/questionnaire.js:518-541 | one pass of the duplicate loop: DuplicatesAtMembers proves the errors are the value and the tokens an earlier choice already has |
| Validation.DuplicatesAtMembers | web/static/js/reducers/questionnaire.js:517-541 | a choice's duplicate errors are its value when an earlier choice has it, and each SMS or voice token that an earlier choice has |
| Validation.ChoiceBlocks | web/static/js/reducers/questionnaire.js:510-512 | the per-choice checks at `path[i]`: ChoiceBlockMessages proves they give only choice messages under their modes |
| Validation.DuplicateBlocks | web/static/js/reducers/questionnaire.js:514-542 | the duplicate checks of every choice: DuplicateBlockMessages and DuplicateErrorIn prove they report only repeats, each from one choice |
| Validation.ChoicesErrors | web/static/js/reducers/questionnaire.js:505-543 | `validateChoices`: ChoicesMembers, TooFewChoicesReported, DuplicateValueReported, DuplicateSmsReported, DuplicateIvrReported and ChoicesFollowModes state its errors; ValidateChoices proves the loops compute it |
| Validation.ChoicesMembers | web/static/js/reducers/questionnaire.js:505-543 | the errors of a step's choices come from the count check, the per-choice checks or the duplicate checks, and from nothing else |
| Validation.ChoiceBlockMessages | web/static/js/reducers/questionnaire.js:510-512 | the per-choice loop reports only choice messages, each under its mode |
| Validation.DuplicateBlockMessages | web/static/js/reducers/questionnaire.js:514-542 | the duplicate loop reports only repeated values and tokens |
| Validation.TooFewChoicesReported | web/static/js/reducers/questionnaire.js:506-508 | fewer than two choices is reported at the choices' path, and only then |
| Validation.ChoicesFollowModes | web/static/js/reducers/questionnaire.js:505-570 | no SMS message is reported with SMS off, and no voice message with voice off |
| Validation.DuplicateErrorIn | web/static/js/reducers/questionnaire.js:514-542 | a repeated-value error of a step comes from the duplicate checks of one of its choices |
| Validation.DuplicateValueReported | web/static/js/reducers/questionnaire.js:519-521 | a choice is reported as repeating a value exactly when an earlier choice has that value |
| Validation.DuplicateSmsReported | web/static/js/reducers/questionnaire.js:523-530 | an SMS token of a choice is reported as repeated exactly when an earlier choice has it |
| Validation.DuplicateIvrReported | web/static/js/reducers/questionnaire.js:532-539 | a voice token of a choice is reported as repeated exactly when an earlier choice has it |
| Validation.StepBlocks | web/static/js/reducers/questionnaire.js:478-482 | the checks of every step at `steps[i]`: FlattenAll and FlattenAllMembers prove validation succeeds exactly when every block does and reports exactly their errors |
| Validation.StepErrors | web/static/js/reducers/questionnaire.js:484-503 | the checks of a step throw exactly when a mode is on and the step has no prompt |
| Validation.StepFollowsModes | web/static/js/reducers/questionnaire.js:484-503 | a step's checks report SMS messages only with SMS on, and voice messages only with voice on |
| Validation.Validate | web/static/js/reducers/questionnaire.js:464-482 | validation throws exactly when a mode is on and some step has no prompt |
| Validation.TooFewChoicesInErrors | web/static/js/reducers/questionnaire.js:464-508 | a multiple-choice step with fewer than two choices has that error at `steps[i].choices` |
| Validation.ErrorsFollowModes | web/static/js/reducers/questionnaire.js:464-570 | without the SMS mode no SMS message appears anywhere in the errors, and without the voice mode no voice message |
| Validation.ChoiceTokens | web/static/js/reducers/questionnaire.js:523-538 | a choice's default-language tokens are its lists, or none when it has no entry |
| Validation.ReportRepeated | web/static/js/reducers/questionnaire.js:524-528 | the inner loop adds exactly the repeated-token errors |
| Validation.ReportDuplicatesAt | web/static/js/reducers/questionnaire.js:518-541 | one pass of the duplicate loop adds exactly that choice's duplicate errors |
| Validation.CheckEachChoice | web/static/js/reducers/questionnaire.js:510-512 | the first loop adds exactly the per-choice errors, in order |
| Validation.CheckRepeated | web/static/js/reducers/questionnaire.js:514-542 | the duplicate loop adds exactly the duplicate errors, in order |
| Validation.ValidateChoices | web/static/js/reducers/questionnaire.js:505-543 | `validateChoices` adds exactly the errors of the specification, in order |
| Validation.Record | web/static/js/reducers/questionnaire.js:484-503 | recording a step's checks, the errors added or the TypeError: ValidateStep proves `validateStep` computes it |
| Validation.ValidateStep | web/static/js/reducers/questionnaire.js:484-503 | `validateStep` adds exactly the step's errors, or throws as specified |
| Validation.ValidateSteps | web/static/js/reducers/questionnaire.js:478-482 | the loop over the steps from an empty map gives the specified errors, or the first step's TypeError |
| Validation.ValidateData | web/static/js/reducers/questionnaire.js:464-476 | the loops compute the specified validation |
| QuestionnaireStore.FilterOf | web/static/js/reducers/fetch.js:10-13 | a received questionnaire's filter is its project and id |
| QuestionnaireStore.Validated | web/static/js/reducers/questionnaire.js:456-476 | without data the errors are left as they were; with data they are rebuilt from the data alone, and a TypeError propagates |
| QuestionnaireStore.Reduce | web/static/js/reducers/questionnaire.js:456-462 | `validateReducer(fetchReducer(actions, dataReducer))`: EditEffect, FetchOtherKeepsErrors, ReceiveRequested and ErrorsRebuilt state its effect on the lifecycle, the data and the errors |
| QuestionnaireStore.EditEffect | web/static/js/reducers/questionnaire.js:456-462 | an edit leaves the lifecycle fields alone and applies the data reducer only when there is data |
| QuestionnaireStore.ErrorsRebuilt | web/static/js/reducers/questionnaire.js:456-476 | the errors after an action depend only on the new data, never on the errors before |
| QuestionnaireStore.FetchOtherKeepsErrors | web/static/js/reducers/questionnaire.js:456-465 | a FETCH of another questionnaire drops the data and keeps the last errors |
| QuestionnaireStore.ReceiveRequested | web/static/js/reducers/questionnaire.js:456-476 | receiving the requested questionnaire stores it and validates it |
| StoreValues.StoreKey | web/static/js/reducers/questionnaire.js:587 | a step's store names its key |
| StoreValues.StoreValuesOf | web/static/js/reducers/questionnaire.js:586-591 | the reduce over the steps: StoreValuesKeys proves its keys are the multiple-choice stores, StoreValuesLastWins that the last such step wins, OtherStepsIgnored that other steps add nothing |
| StoreValues.StepStoreValues | web/static/js/reducers/questionnaire.js:581-592 | `stepStoreValues(questionnaire)`: the same map over the questionnaire's steps, which SurveyActions.OptionsFrom reads |
| StoreValues.StoreValuesKeys | web/static/js/reducers/questionnaire.js:581-592 | the keys are exactly the stores of the multiple-choice steps |
| StoreValues.StoreValuesLastWins | web/static/js/reducers/questionnaire.js:586-591 | a key maps to the choice values of the last multiple-choice step with that store |
| StoreValues.OtherStepsIgnored | web/static/js/reducers/questionnaire.js:582-584 | steps of other kinds add nothing |
| TranslationCsv.Quote | web/static/js/reducers/questionnaire.js:600 | a cell is the text between two double quotes, not escaped |
| TranslationCsv.UnquoteQuote | web/static/js/reducers/questionnaire.js:600 | the text of a quoted cell is the text quoted |
| TranslationCsv.Headers | web/static/js/reducers/questionnaire.js:595-599 | the default language comes first, then every other language as often as the questionnaire lists it |
| TranslationCsv.HeadersInOrder | web/static/js/reducers/questionnaire.js:595-599 | the other languages keep their order: with no languages there is one column, and one more language adds its column last unless it is the default |
| TranslationCsv.HeaderRow | web/static/js/reducers/questionnaire.js:600 | the header row is the quoted language codes |
| TranslationCsv.SmsRow | web/static/js/reducers/questionnaire.js:612-618 | an SMS prompt row has one cell per language: its SMS text quoted, or an empty quoted cell |
| TranslationCsv.IvrRow | web/static/js/reducers/questionnaire.js:627-633 | a voice prompt row has one cell per language, undefined for a language without a voice prompt |
| TranslationCsv.ChoiceRow | web/static/js/reducers/questionnaire.js:644-650 | a response row has one cell per language, with the SMS responses joined by ', ' |
| TranslationCsv.SmsKey | web/static/js/reducers/questionnaire.js:608-609 | an SMS prompt row is keyed by a non-blank default-language text |
| TranslationCsv.IvrKey | web/static/js/reducers/questionnaire.js:623-624 | a voice prompt row is keyed by a non-blank default-language text |
| TranslationCsv.Offer | web/static/js/reducers/questionnaire.js:610-611 | a text already exported adds nothing; a new one adds its row and is recorded |
| TranslationCsv.OfferKeeps | web/static/js/reducers/questionnaire.js:602-619 | adding a row for a new non-blank text keeps the matrix consistent and records the text |
| TranslationCsv.ExportPrompt | web/static/js/reducers/questionnaire.js:607-635 | a step's SMS and voice prompt rows: ExportPromptKeeps proves they keep the matrix consistent and record both non-blank texts |
| TranslationCsv.ExportChoice | web/static/js/reducers/questionnaire.js:639-650 | one choice's response row, or the TypeError of a missing default-language entry: ExportChoiceKeeps and ChoiceTextOffered prove it keeps the matrix consistent and records the text |
| TranslationCsv.ExportChoices | web/static/js/reducers/questionnaire.js:637-651 | the `forEach` over the choices: ExportChoicesKeeps and ChoiceListTextsExported prove consistency and that every choice's text is recorded |
| TranslationCsv.ExportStep | web/static/js/reducers/questionnaire.js:605-654 | one step's rows, none for the language selection and a TypeError without a prompt: ExportStepKeeps proves consistency and that nothing recorded is forgotten |
| TranslationCsv.ExportSteps | web/static/js/reducers/questionnaire.js:605-655 | the `forEach` over the steps: ExportStepsKeeps, StepTextsExported and StepChoiceTextsExported prove consistency and that every prompt and response text is recorded |
| TranslationCsv.CsvForTranslation | web/static/js/reducers/questionnaire.js:594-658 | `csvForTranslation`: CsvShape proves the matrix's shape, PromptTextsExported and ChoiceTextsExported that no text is lost, and CsvRows that the pushes compute it |
| TranslationCsv.ExportPromptKeeps | web/static/js/reducers/questionnaire.js:607-635 | a step's prompt rows keep the matrix consistent and record its SMS and voice texts |
| TranslationCsv.ExportChoiceKeeps | web/static/js/reducers/questionnaire.js:640-651 | a choice's response row keeps the matrix consistent |
| TranslationCsv.ExportChoicesKeeps | web/static/js/reducers/questionnaire.js:638-653 | the rows of all choices keep the matrix consistent |
| TranslationCsv.ExportStepKeeps | web/static/js/reducers/questionnaire.js:605-655 | a step's rows keep the matrix consistent and forget no recorded text |
| TranslationCsv.ExportStepsKeeps | web/static/js/reducers/questionnaire.js:605-655 | the rows of all steps keep the matrix consistent and forget no recorded text |
| TranslationCsv.CsvShape | web/static/js/reducers/questionnaire.js:594-658 | the header row comes first; every row is as wide as it; every other row starts with a distinct quoted non-blank text |
| TranslationCsv.StepTextsExported | web/static/js/reducers/questionnaire.js:605-635 | every step other than the language selection has its non-blank default-language prompt texts recorded |
| TranslationCsv.ExportedHasRow | web/static/js/reducers/questionnaire.js:602-619 | a recorded text has a row with the text quoted in its first cell |
| TranslationCsv.PromptTextsExported | web/static/js/reducers/questionnaire.js:594-658 | no prompt text is lost: each non-blank default-language SMS or voice prompt has a row |
| TranslationCsv.ChoiceKey | web/static/js/reducers/questionnaire.js:639-641 | a choice's row key is its default-language SMS responses joined by ', ', only when not blank |
| TranslationCsv.ChoiceTextOffered | web/static/js/reducers/questionnaire.js:639-648 | a choice's non-blank response text is recorded by its own step of the loop |
| TranslationCsv.ChoiceListTextsExported | web/static/js/reducers/questionnaire.js:637-651 | every choice the loop passes has its non-blank response text recorded |
| TranslationCsv.StepChoiceTextsExported | web/static/js/reducers/questionnaire.js:605-654 | every choice of every multiple-choice step has its non-blank response text recorded |
| TranslationCsv.ChoiceTextsExported | web/static/js/reducers/questionnaire.js:594-658 | no response text is lost: each choice's non-blank default-language SMS responses have a row |
| TranslationCsv.AddChoiceRows | web/static/js/reducers/questionnaire.js:638-653 | the `forEach` over the choices computes the specified rows |
| TranslationCsv.CsvRows | web/static/js/reducers/questionnaire.js:594-658 | the rows pushed step by step are the specified matrix |
| NumericEditor.DelimiterTexts | web/static/js/components/questionnaires/StepNumericEditor.jsx:45-54 | the delimiter texts are the `from` of every range after the first, in order |
| NumericEditor.DelimitersFromRanges | web/static/js/components/questionnaires/StepNumericEditor.jsx:45-54 | `delimitersFromRanges`: DelimitersOf proves the loop computes it, NoDelimiters and DelimitersRoundTrip that it shows exactly the delimiters the ranges came from |
| NumericEditor.DelimitersOf | web/static/js/components/questionnaires/StepNumericEditor.jsx:45-54 | the loop that pushes each `from` after the first and joins them gives the delimiters text |
| NumericEditor.NoDelimiters | web/static/js/components/questionnaires/StepNumericEditor.jsx:45-54 | zero or one range shows no delimiters |
| NumericEditor.NoCommaInInteger | web/static/js/components/questionnaires/StepNumericEditor.jsx:45-54 | the text of an integer holds no comma, so joined delimiters split back apart |
| NumericEditor.IntegerTexts | web/static/js/components/questionnaires/StepNumericEditor.jsx:45-54 | integer delimiters are shown as their decimal texts |
| NumericEditor.JoinCoversFirst | web/static/js/components/questionnaires/StepNumericEditor.jsx:45-54 | a joined text is at least as long as its first part |
| NumericEditor.IntegerDelimitersParse | web/static/js/reducers/questionnaire.js:672-675 | the editor's text of integer delimiters parses back to those delimiters |
| NumericEditor.MaterialisedDelimiters | web/static/js/components/questionnaires/StepNumericEditor.jsx:45-54 | the ranges that CHANGE_NUMERIC_RANGES generates show exactly the delimiters they were generated from |
| NumericEditor.DelimitersRoundTrip | web/static/js/components/questionnaires/StepNumericEditor.jsx:45-54 | after the ranges are generated from integer delimiters, the editor shows them as "d1,...,dk", and that text parses to the same delimiters |
| NumericEditor.BoundAsWritten | web/static/js/components/questionnaires/StepNumericEditor.jsx:28-37 | the form keeps a stored bound as the number itself and a null bound as '' |
| NumericEditor.ZeroBoundLost | web/static/js/components/questionnaires/StepNumericEditor.jsx:28-37 | a stored minimum of 0, submitted again unchanged, reaches the reducer as no minimum |
| NumericEditor.BoundText | web/static/js/components/questionnaires/StepNumericEditor.jsx:28-37 | the corrected form holds a bound as text, '' exactly for a null bound |
| NumericEditor.ParseNaNText | web/static/js/reducers/questionnaire.js:666-667 | the text "NaN" parses as NaN |
| NumericEditor.BoundTextRoundTrip | web/static/js/components/questionnaires/StepNumericEditor.jsx:28-37 | a bound shown as text and submitted unchanged is the same bound again, 0 and NaN included |
| NumericEditor.Editor.constructor | web/static/js/components/questionnaires/StepNumericEditor.jsx:28-37 | corrected: the form holds the step id, the bounds as text, the ranges (none when missing) and the delimiters text of those ranges |
| NumericEditor.Editor.AsWritten | web/static/js/components/questionnaires/StepNumericEditor.jsx:28-37 | as written: the same form with each stored bound held as the number itself |
| NumericEditor.Editor.MinValueChange | web/static/js/components/questionnaires/StepNumericEditor.jsx:56-58 | the typed text replaces the minimum and nothing else changes |
| NumericEditor.Editor.MaxValueChange | web/static/js/components/questionnaires/StepNumericEditor.jsx:65-67 | the typed text replaces the maximum and nothing else changes |
| NumericEditor.Editor.RangesDelimitersChange | web/static/js/components/questionnaires/StepNumericEditor.jsx:74-76 | the typed text replaces the delimiters and nothing else changes |
| NumericEditor.Editor.Submit | web/static/js/components/questionnaires/StepNumericEditor.jsx:60-81 | each of the three submits builds the CHANGE_NUMERIC_RANGES action from the whole form; ResubmitLoaded takes it through the reducer |
| NumericEditor.Editor.SkipLogicChange | web/static/js/components/questionnaires/StepNumericEditor.jsx:83-103 | only the chosen range's skip logic changes in the form, and the CHANGE_RANGE_SKIP_LOGIC action is built for that range |
| NumericEditor.BoundAsWrittenParsed | web/static/js/reducers/questionnaire.js:666-667 | a bound held as a number comes back from the reducer unchanged unless it is 0 or NaN, which are lost |
| NumericEditor.PropsOf | web/static/js/components/questionnaires/StepNumericEditor.jsx:28-35 | the step fields the editor reads: ResubmitLoaded and ResubmitLoadedAsWritten open the editor on them |
| NumericEditor.ReduceNumericRanges | web/static/js/reducers/questionnaire.js:661-730 | CHANGE_NUMERIC_RANGES on a numeric step applies and replaces that step, and only it, by the edited step |
| NumericEditor.EditedBounds | web/static/js/reducers/questionnaire.js:661-730 | the edited numeric step has the parsed texts as bounds and the submitted delimiters text, every other field kept |
| NumericEditor.ResubmitLoaded | web/static/js/components/questionnaires/StepNumericEditor.jsx:28-81 | corrected: the editor opened on a numeric step and submitted unedited, then reduced, keeps the step's minimum and maximum whether or not the ranges are regenerated; it stores the delimiters shown and changes no other step or field |
| NumericEditor.ResubmitLoadedAsWritten | web/static/js/components/questionnaires/StepNumericEditor.jsx:28-81 | as written: the same round trip loses a minimum or maximum of 0 (or NaN) and keeps every other bound |
| NumericEditor.SkipLogicAgrees | web/static/js/components/questionnaires/StepNumericEditor.jsx:83-103 | the form's ranges after a skip-logic change equal what the reducer computes for the step, so form and store agree |
| Folders.FolderTable.constructor | web/static/js/reducers/folder.js:58-63 | a folders object holds the folders it is given |
| Folders.FolderState.Initial | web/static/js/reducers/folder.js:4-8 | `initialState`: no loading, no errors and no folders |
| Folders.FolderState.Copy | web/static/js/reducers/folder.js:11 | `{...state}`: the spread copies every field and shares the folders object |
| Folders.Apply | web/static/js/reducers/folder.js:16-83 | the reducer throws exactly on DELETED before any folders were fetched |
| Folders.BusyOnlyRaisesLoading | web/static/js/reducers/folder.js:23-28 | SAVING and DELETING raise the loading flag and change nothing else |
| Folders.SaveOutcomes | web/static/js/reducers/folder.js:29-47 | a save ends with loading off, with no errors on success and the server's errors on failure; a failed delete clears the errors |
| Folders.DeleteKeepsOthers | web/static/js/reducers/folder.js:10-14 | DELETED removes that folder and keeps every other folder and field |
| Folders.FetchCycles | web/static/js/reducers/folder.js:48-79 | a fetch raises `loadingFetch`, and its answer stores the payload and lowers the flag |
| Folders.DeleteFolderAsWritten | web/static/js/reducers/folder.js:10-14 | the code as written deletes the key from the folders object the previous state shares |
| Folders.PreviousStateLosesFolder | web/static/js/reducers/folder.js:10-14 | a state that held folder 7 no longer holds it once DELETED for 7 is reduced from it |
| Folders.DeleteFolder | web/static/js/reducers/folder.js:10-14 | the corrected delete builds a new state with its own folders object, as the reducer specifies, and leaves the previous state intact |
| Folders.Reduce | web/static/js/reducers/folder.js:16-83 | corrected (DELETED_FOLDER as Folders.DeleteFolder): every known action gives a new state as the reducer specifies, with the previous state untouched; an unknown action returns the state itself |
| RespondentGroups.Initial | web/static/js/reducers/respondentGroups.js:3-8 | the store starts not fetching, with no items, no survey and no invalid entries |
| RespondentGroups.Spread | web/static/js/reducers/respondentGroups.js:48-69 | spreading null items gives the empty object |
| RespondentGroups.AsItems | web/static/js/reducers/respondentGroups.js:34-46 | the received groups become the items, one per id |
| RespondentGroups.Reduce | web/static/js/reducers/respondentGroups.js:10-21 | the reducer: FetchKeepsItemsOfSameSurvey, ReceiveOnlyForRequestedSurvey, RemoveUndoesReceive, SelectChangesOnlyChannels and InvalidsOnly state its effect |
| RespondentGroups.Fetch | web/static/js/reducers/respondentGroups.js:23-32 | FETCH records the survey, clears the invalid entries, and keeps the items only for the same survey (loose equality) |
| RespondentGroups.ReceiveAll | web/static/js/reducers/respondentGroups.js:34-46 | groups for another survey are ignored; groups for the current survey replace the items and end the fetch |
| RespondentGroups.ReceiveOne | web/static/js/reducers/respondentGroups.js:48-58 | the received group is stored under its id and every other entry is kept |
| RespondentGroups.Remove | web/static/js/reducers/respondentGroups.js:60-69 | the id is deleted from a copy of the items and every other entry is kept |
| RespondentGroups.WithChannels | web/static/js/reducers/respondentGroups.js:83-94 | a group gets the new channels; an id without a group gets an entry holding only the channels |
| RespondentGroups.Select | web/static/js/reducers/respondentGroups.js:83-94 | SELECT_CHANNELS throws exactly when there are no items; otherwise only the one entry changes |
| RespondentGroups.FetchKeepsItemsOfSameSurvey | web/static/js/reducers/respondentGroups.js:23-32 | FETCH keeps the items exactly when the stored survey id equals the new one as a number or as numeric text |
| RespondentGroups.ReceiveOnlyForRequestedSurvey | web/static/js/reducers/respondentGroups.js:23-46 | after a request, a response for another survey is dropped and the response for the requested survey is stored |
| RespondentGroups.ReceiveOneTouchesOneKey | web/static/js/reducers/respondentGroups.js:48-58 | receiving one group sets its entry and no other |
| RespondentGroups.RemoveTouchesOneKey | web/static/js/reducers/respondentGroups.js:60-69 | removing a group deletes its key and keeps every other entry |
| RespondentGroups.RemoveUndoesReceive | web/static/js/reducers/respondentGroups.js:48-69 | removing a group just received under a new id gives the items back |
| RespondentGroups.SelectChangesOnlyChannels | web/static/js/reducers/respondentGroups.js:83-94 | SELECT_CHANNELS changes only the one entry's channels, and selecting the same channels again changes nothing |
| RespondentGroups.InvalidsOnly | web/static/js/reducers/respondentGroups.js:10-21 | INVALID_RESPONDENTS and CLEAR_INVALIDS change only the invalid entries; an unknown action returns the state |
| Respondents.Initial | web/static/js/reducers/respondents.js:3-14 | the store starts on page 1 of five, with nothing counted, no items, no survey and ascending unsorted order |
| Respondents.Reduce | web/static/js/reducers/respondents.js:16-24 | the reducer: ReceiveOnlyRequestedPage, FetchKeepsItemsOfSameSurvey and CreateAndUpdateAgree state its effect; an unknown action returns the state |
| Respondents.Fetch | web/static/js/reducers/respondents.js:26-40 | FETCH records the survey and the page number, resets the sort, and keeps the items only for the same survey |
| Respondents.Put | web/static/js/reducers/respondents.js:42-47 | CREATE and UPDATE store the respondent under its id and change nothing else |
| Respondents.Receive | web/static/js/reducers/respondents.js:49-65 | a response is taken only for the survey and page last requested, with its count; any other response is ignored |
| Respondents.ReceiveOnlyRequestedPage | web/static/js/reducers/respondents.js:26-65 | after a request, a response for an earlier page or for another survey is dropped, and the requested page is stored with its count |
| Respondents.FetchKeepsItemsOfSameSurvey | web/static/js/reducers/respondents.js:26-40 | paging through a survey keeps the displayed respondents, and another survey drops them |
| Respondents.CreateAndUpdateAgree | web/static/js/reducers/respondents.js:16-47 | CREATE and UPDATE write the same entry without touching the page items; an unknown action changes nothing |
| ChartCount.CumulativeCountFor | web/static/js/components/respondents/RespondentsChartCount.jsx:13-16 | `cumulativeCountFor`: CountForAppend, CountForMonotone, CountForLatestIsTotal, CountForEarliestIsZero and CountForBetween prove it additive, monotone in the date, the total at the latest date, zero before all dates and within bounds |
| ChartCount.CountForAppend | web/static/js/components/respondents/RespondentsChartCount.jsx:13-16 | the cumulative count over two lists of entries is the sum of the counts over each |
| ChartCount.CountForMonotone | web/static/js/components/respondents/RespondentsChartCount.jsx:13-16 | with non-negative counts, a later date never has a smaller cumulative count |
| ChartCount.CountForLatestIsTotal | web/static/js/components/respondents/RespondentsChartCount.jsx:13-16 | from a date no entry is after, the cumulative count is the total |
| ChartCount.CountForEarliestIsZero | web/static/js/components/respondents/RespondentsChartCount.jsx:13-16 | before every entry's date the cumulative count is zero |
| ChartCount.CumulativeCount | web/static/js/components/respondents/RespondentsChartCount.jsx:1-11 | there is one point per entry, with its date and the cumulative count at that date |
| ChartCount.CountForBetween | web/static/js/components/respondents/RespondentsChartCount.jsx:13-16 | with counts that are not negative, a cumulative count lies between zero and the total |
| ChartCount.Reached | web/static/js/components/respondents/RespondentsChartCount.jsx:18-21 | with no entries nothing is reached; otherwise the cumulative count at the last entry's date, which with counts that are not negative is at least that entry's count and at most the total |
| ChartCount.ReachedIsTotalWhenOrdered | web/static/js/components/respondents/RespondentsChartCount.jsx:18-21 | with entries in date order, the number reached is the total |
| RetriesHistogram.TranslateType | web/static/js/components/surveys/SurveyRetriesPanel.jsx:23-31 | 'ivr' is shown as 'voice' and 'end' as 'discard'; every other type is unchanged |
| RetriesHistogram.AdjustDelay | web/static/js/components/surveys/SurveyRetriesPanel.jsx:32 | a zero delay counts as one hour except on the first step |
| RetriesHistogram.AdjustedDelays | web/static/js/components/surveys/SurveyRetriesPanel.jsx:32 | each step's delay is adjusted by its position |
| RetriesHistogram.HistLength | web/static/js/components/surveys/SurveyRetriesPanel.jsx:38 | the histogram length `reduce` computes: HistLengthOfAdjusted and HistLengthAndLastOffset prove it covers the schedule to the last offset, plus one hour for a zero first delay |
| RetriesHistogram.HistLengthOfAdjusted | web/static/js/components/surveys/SurveyRetriesPanel.jsx:38 | the histogram length is the sum of the adjusted delays, plus one when the first step has no delay |
| RetriesHistogram.Zeros | web/static/js/components/surveys/SurveyRetriesPanel.jsx:40-45 | the new array has one zero per hour |
| RetriesHistogram.Fill | web/static/js/components/surveys/SurveyRetriesPanel.jsx:47-49 | writing the slots succeeds exactly when every slot's hour is inside the array, and keeps the array's length |
| RetriesHistogram.FillAppend | web/static/js/components/surveys/SurveyRetriesPanel.jsx:47-49 | one more slot writes its count at its hour, or throws when the hour is outside the array |
| RetriesHistogram.FillLastWriteWins | web/static/js/components/surveys/SurveyRetriesPanel.jsx:40-49 | every hour holds the count of the last slot written there, or 0 when no slot was |
| RetriesHistogram.Shown | web/static/js/components/surveys/SurveyRetriesPanel.jsx:32-37 | one shown step per flow step: ShowFlow proves the `forEach` computes it, OffsetsIncrease that the offsets accumulate and increase |
| RetriesHistogram.ShowFlow | web/static/js/components/surveys/SurveyRetriesPanel.jsx:32-37 | the loop gives each step the adjusted delay, the display type and the running offset |
| RetriesHistogram.FillActives | web/static/js/components/surveys/SurveyRetriesPanel.jsx:40-49 | the array is zeroed, then written slot by slot in place, as specified |
| RetriesHistogram.OffsetsIncrease | web/static/js/components/surveys/SurveyRetriesPanel.jsx:33-37 | each offset adds its step's delay to the previous one, and strictly increases when delays are not negative |
| RetriesHistogram.HistLengthAndLastOffset | web/static/js/components/surveys/SurveyRetriesPanel.jsx:32-38 | the histogram covers the schedule up to the last offset, plus one hour when the first step has no delay |
| RetriesHistogram.GetHistogram | web/static/js/components/surveys/SurveyRetriesPanel.jsx:22-57 | the histogram holds the shown flow, the filled actives and a quota of 100; it throws on a negative length or a slot outside the schedule |
| RetriesHistogram.Completes | web/static/js/components/surveys/SurveyRetriesPanel.jsx:63 | no hour is marked complete |
| RetriesHistogram.Timewindows | web/static/js/components/surveys/SurveyRetriesPanel.jsx:63 | every hour is in a time window |
| Grouping.Add | web/static/js/components/simulation/ChatWindow.jsx:86-96 | the message ends the last group; every earlier group is kept, and at most one group is added |
| Grouping.GroupBy | web/static/js/components/simulation/ChatWindow.jsx:85-97 | no group is empty, there are no more groups than messages, and some messages give some group |
| Grouping.AddFlatten | web/static/js/components/simulation/ChatWindow.jsx:86-96 | after adding a message, the groups read in order end with that message |
| Grouping.GroupByFlatten | web/static/js/components/simulation/ChatWindow.jsx:85-97 | the groups read in order give back the messages |
| Grouping.GroupByRuns | web/static/js/components/simulation/ChatWindow.jsx:85-97 | each group holds messages of one type, and neighbouring groups are of different types |
| Grouping.AddKeepsRuns | web/static/js/components/simulation/ChatWindow.jsx:86-96 | adding a message keeps the groups runs of one type |
| Grouping.RunsNewGroup | web/static/js/components/simulation/ChatWindow.jsx:89-90 | a message of another type than the last one starts a run of its own |
| Grouping.RunsJoin | web/static/js/components/simulation/ChatWindow.jsx:91-93 | a message of the last one's type extends the last run |
| Grouping.DropSingleton | web/static/js/components/simulation/ChatWindow.jsx:85-97 | dropping a last group of one message leaves runs ending with a message of another type |
| Grouping.DropFromLongerGroup | web/static/js/components/simulation/ChatWindow.jsx:85-97 | dropping the last message of a longer group leaves runs ending with a message of its type |
| Grouping.GroupBySnoc | web/static/js/components/simulation/ChatWindow.jsx:85-97 | grouping a list with one more message adds that message to the groups of the rest |
| Grouping.StartsGroup | web/static/js/components/simulation/ChatWindow.jsx:89-90 | a message of another type than the last starts a new group |
| Grouping.JoinsGroup | web/static/js/components/simulation/ChatWindow.jsx:91-93 | a message of the last message's type joins the last group |
| Grouping.JoinsRun | web/static/js/components/simulation/ChatWindow.jsx:91-93 | a message of the last run's type joins that run when the groups are regrouped |
| Grouping.LongerCase | web/static/js/components/simulation/ChatWindow.jsx:85-97 | regrouping runs whose last group has several messages gives them back |
| Grouping.SingletonCase | web/static/js/components/simulation/ChatWindow.jsx:85-97 | regrouping runs whose last group is one message gives them back |
| Grouping.RunsAreUnique | web/static/js/components/simulation/ChatWindow.jsx:85-97 | any cut of messages into runs of one type, with neighbours of different types, is the cut `groupBy` builds |
| Grouping.GroupByLoop | web/static/js/components/simulation/ChatWindow.jsx:85-97 | the `reduce` that pushes onto the groups computes the specified grouping |
| Grouping.GroupMessages | web/static/js/components/simulation/ChatWindow.jsx:98-100 | the bubbles read in order give back the messages, each bubble is of one sender, neighbours differ, and there is no other such cut |
| ChatWindow.BubbleClass | web/static/js/components/simulation/ChatWindow.jsx:46-53 | a bubble's class from its first message: BubbleClassIsOwnType proves a message is styled as the respondent's exactly when the respondent sent it |
| ChatWindow.BubbleClassIsOwnType | web/static/js/components/simulation/ChatWindow.jsx:46-58 | a message is styled as the respondent's exactly when the respondent sent it |
| ChatWindow.ChatFooter.constructor | web/static/js/components/simulation/ChatWindow.jsx:134-136 | the footer starts with nothing typed |
| ChatWindow.ChatFooter.InputChange | web/static/js/components/simulation/ChatWindow.jsx:162 | the input holds what was typed |
| ChatWindow.ChatFooter.SendMessage | web/static/js/components/simulation/ChatWindow.jsx:138-146 | a non-empty input is sent as the respondent's message and cleared; an empty input sends nothing |
| ChatWindow.ChatFooter.KeyPress | web/static/js/components/simulation/ChatWindow.jsx:147-152 | Enter sends a non-empty input and clears it, and on an empty input sends nothing and keeps it, unless the window is read-only; any other key sends nothing |
| SmsSimulator.Msg | web/static/js/components/simulator/SmsSimulator.jsx:9-11 | a message holds the text and the type it is given |
| SmsSimulator.TestMessages | web/static/js/components/simulator/SmsSimulator.jsx:13-20 | the simulator starts with six sample messages, the last one the user's "25" |
| SmsSimulator.Last | web/static/js/components/simulator/SmsSimulator.jsx:40-47 | the last message, or none exactly for an empty conversation |
| SmsSimulator.Reply | web/static/js/components/simulator/SmsSimulator.jsx:49-54 | the bot's answer quoting a message: UserMessageAnsweredOnce proves a user message gets exactly one |
| SmsSimulator.AfterUpdate | web/static/js/components/simulator/SmsSimulator.jsx:49-54 | the conversation after `componentDidUpdate`: AfterUpdateSettles proves a second update changes nothing, UserMessageAnsweredOnce that only a user message is answered |
| SmsSimulator.BubbleClass | web/static/js/components/simulator/SmsSimulator.jsx:88-91 | a bubble's class from its first message: BubblesShowConversation proves a message is styled as sent exactly when the user sent it |
| SmsSimulator.AfterUpdateSettles | web/static/js/components/simulator/SmsSimulator.jsx:49-54 | after an update the last message is never the user's, so a second update changes nothing |
| SmsSimulator.UserMessageAnsweredOnce | web/static/js/components/simulator/SmsSimulator.jsx:26-54 | a message the user sends gets exactly one answer quoting it, and a message of the bot gets none |
| SmsSimulator.BubblesShowConversation | web/static/js/components/simulator/SmsSimulator.jsx:88-133 | a message is styled as sent exactly when the user sent it, and the bubbles read in order give back the conversation |
| SmsSimulator.Simulator.constructor | web/static/js/components/simulator/SmsSimulator.jsx:13-20 | the conversation starts as the sample messages |
| SmsSimulator.Simulator.AddMessage | web/static/js/components/simulator/SmsSimulator.jsx:36-38 | the message is appended to the conversation |
| SmsSimulator.Simulator.HandleUserSentMessage | web/static/js/components/simulator/SmsSimulator.jsx:26-29 | the body is appended as the user's message |
| SmsSimulator.Simulator.HandleBotSentMessage | web/static/js/components/simulator/SmsSimulator.jsx:31-34 | the body is appended as the bot's message |
| SmsSimulator.Simulator.LastMessage | web/static/js/components/simulator/SmsSimulator.jsx:40-47 | the result is the last message of the conversation, or none when it is empty |
| SmsSimulator.Simulator.ComponentDidUpdate | web/static/js/components/simulator/SmsSimulator.jsx:49-54 | the bot answers the user's last message, and afterwards the last message is not the user's |
| SmsSimulator.Footer.constructor | web/static/js/components/simulator/SmsSimulator.jsx:157-161 | the footer starts with an empty body |
| SmsSimulator.Footer.HandleChange | web/static/js/components/simulator/SmsSimulator.jsx:163-168 | the field named `messageBody` takes the typed value; any other name leaves the body alone |
| SmsSimulator.Footer.SendMessage | web/static/js/components/simulator/SmsSimulator.jsx:170-173 | the body is sent as it is, an empty one included, and the input is cleared |
| SmsSimulator.Footer.KeyPress | web/static/js/components/simulator/SmsSimulator.jsx:175-180 | Enter sends the body, an empty one included, and clears it; any other key sends nothing and keeps it |
| RespondentIndex.Keys | web/static/js/components/respondents/RespondentIndex.jsx:115-121 | the keys of a dictionary are its entries' names, in order |
| RespondentIndex.Slot | web/static/js/components/respondents/RespondentIndex.jsx:117-119 | a new key goes before the first key it is listed before, and a key that is not an array index goes last |
| RespondentIndex.Assign | web/static/js/components/respondents/RespondentIndex.jsx:117-119 | assigning an existing key keeps the keys as they were |
| RespondentIndex.Put | web/static/js/components/respondents/RespondentIndex.jsx:117-119 | setting an existing key keeps its place; a new array index goes among the indices by value, and any other new key goes last |
| RespondentIndex.PutGet | web/static/js/components/respondents/RespondentIndex.jsx:117-119 | after setting a key it holds the value, and every other key holds what it held |
| RespondentIndex.GetPresent | web/static/js/components/respondents/RespondentIndex.jsx:115-121 | a lookup finds a key exactly when it is present |
| RespondentIndex.DictionaryOf | web/static/js/components/respondents/RespondentIndex.jsx:115-121 | the dictionary `responsesDictionaryFrom` builds: DictionaryLookup, DictionaryKeys and DictionaryOrdered prove its values, keys and key order; ResponsesDictionaryFrom proves the loop computes it |
| RespondentIndex.LastValue | web/static/js/components/respondents/RespondentIndex.jsx:115-121 | the value of the last response with a name: LastValueFound proves there is one exactly when some response has the name |
| RespondentIndex.DictionaryLookup | web/static/js/components/respondents/RespondentIndex.jsx:115-121 | each name holds the value of its last response, and a name no response has is absent |
| RespondentIndex.LastValueFound | web/static/js/components/respondents/RespondentIndex.jsx:115-121 | a name has a last response exactly when some response has that name |
| RespondentIndex.PutDistinct | web/static/js/components/respondents/RespondentIndex.jsx:117-119 | setting a key keeps the keys distinct |
| RespondentIndex.GetAppend | web/static/js/components/respondents/RespondentIndex.jsx:117-119 | a lookup in two dictionaries laid end to end finds the first one's entry first |
| RespondentIndex.AssignGet | web/static/js/components/respondents/RespondentIndex.jsx:117-119 | assigning an existing key changes its value and no other |
| RespondentIndex.SlotPrecedesRest | web/static/js/components/respondents/RespondentIndex.jsx:117-119 | in ordered keys, no key from a new key's slot onwards is listed before it |
| RespondentIndex.PutKeepsOrder | web/static/js/components/respondents/RespondentIndex.jsx:117-119 | setting a key keeps array indices first, in ascending order, before the other keys |
| RespondentIndex.DictionaryOrdered | web/static/js/components/respondents/RespondentIndex.jsx:115-121 | the keys of a responses dictionary are in the order `Object.keys` lists them |
| RespondentIndex.IndexKeyListedFirst | web/static/js/components/respondents/RespondentIndex.jsx:123-127 | responses named "q" then "1" give the columns "1" then "q" |
| RespondentIndex.DictionaryKeys | web/static/js/components/respondents/RespondentIndex.jsx:115-121 | the keys of the dictionary are the response names, each once |
| RespondentIndex.ResponsesDictionaryFrom | web/static/js/components/respondents/RespondentIndex.jsx:115-121 | the `for…in` loop builds the specified dictionary |
| RespondentIndex.GenerateResponsesDictionaryFor | web/static/js/components/respondents/RespondentIndex.jsx:108-113 | every respondent, and no other, gets the dictionary of its own responses |
| RespondentIndex.AllFieldNames | web/static/js/components/respondents/RespondentIndex.jsx:123-127 | `allFieldNames`: AllFieldNamesCollects proves it holds every field some respondent has, as often as respondents have it |
| RespondentIndex.AllFieldNamesCollects | web/static/js/components/respondents/RespondentIndex.jsx:123-127 | the columns hold every field some respondent has, as many times as respondents have it |
| RespondentIndex.HasResponded | web/static/js/components/respondents/RespondentIndex.jsx:129-131 | looking up a respondent not in the table throws |
| RespondentIndex.ResponseOf | web/static/js/components/respondents/RespondentIndex.jsx:133-135 | looking up a respondent not in the table throws |
| RespondentIndex.CellShowsLastResponse | web/static/js/components/respondents/RespondentIndex.jsx:129-135 | a cell shows the value of the respondent's last response to the field, or '-' when there is none |
| RespondentIndex.PageOf | web/static/js/components/respondents/RespondentIndex.jsx:294-297 | there is a previous page exactly after the first, and the last row shown is never beyond the total |
| RespondentIndex.PagingCounts | web/static/js/components/respondents/RespondentIndex.jsx:294-297 | the first row is that of the page; there is a next page exactly when a respondent comes after it; the page shows a full page or the rest |
| IndexPages.BoundsOf | web/static/js/components/projects/ProjectIndex.jsx:142-143 | the bounds never pass the total, and a page inside the list starts one after its index |
| IndexPages.PagesCoverList | web/static/js/components/projects/ProjectIndex.jsx:139-141 | paging from the first page shows every item once, in order |
| IndexPages.ProjectPage | web/static/js/components/projects/ProjectIndex.jsx:132-157 | every project is counted, and the page exists exactly when the projects do |
| IndexPages.ProjectPageWindow | web/static/js/components/projects/ProjectIndex.jsx:136-145 | the page is the window of the projects cut at the end; there is a previous page exactly when this is not the first and there is more than one project, and a next page exactly when a project follows; the bounds count the projects shown |
| IndexPages.NoProjects | web/static/js/components/projects/ProjectIndex.jsx:136-145 | without projects nothing is counted and there is no next page |
| IndexPages.NotAfterTotal | web/static/js/components/surveys/SurveyIndex.jsx:197 | any two update times are ordered one way or the other |
| IndexPages.NotAfterTransitive | web/static/js/components/surveys/SurveyIndex.jsx:197 | the order of update times is transitive |
| IndexPages.Insert | web/static/js/components/surveys/SurveyIndex.jsx:197 | inserting adds exactly that survey |
| IndexPages.TailNotAfterHead | web/static/js/components/surveys/SurveyIndex.jsx:197 | in a sorted list, no later survey was updated after the first |
| IndexPages.InsertElements | web/static/js/components/surveys/SurveyIndex.jsx:197 | an inserted list holds the survey and the others, and nothing else |
| IndexPages.InsertDescending | web/static/js/components/surveys/SurveyIndex.jsx:197 | inserting keeps the list most recently updated first |
| IndexPages.SortByUpdate | web/static/js/components/surveys/SurveyIndex.jsx:197 | the sort is a permutation of the surveys |
| IndexPages.SortByUpdateDescending | web/static/js/components/surveys/SurveyIndex.jsx:197 | the sorted surveys are most recently updated first |
| IndexPages.SurveyPage | web/static/js/components/surveys/SurveyIndex.jsx:185-217 | every survey is counted, and the page exists exactly when the surveys do |
| IndexPages.SurveyPageWindow | web/static/js/components/surveys/SurveyIndex.jsx:197-202 | the page is the window of the sorted surveys, most recent first, holding only surveys of the list, as many as the bounds count |
| IndexPages.WindowOf | web/static/js/components/surveys/SurveyIndex.jsx:199 | a window of a sorted list is sorted and holds only its surveys |
| WizardRespondents.OtherTypes | web/static/js/components/surveys/SurveyWizardRespondentsStep.jsx:64-65 | the kept channels are exactly the group's channels of other types |
| WizardRespondents.OtherTypesAppend | web/static/js/components/surveys/SurveyWizardRespondentsStep.jsx:64-65 | the filter keeps the order of the channels |
| WizardRespondents.ChannelChange | web/static/js/components/surveys/SurveyWizardRespondentsStep.jsx:61-73 | the change throws exactly when a channel of the group is missing from the known channels |
| WizardRespondents.ChannelChangeReplaces | web/static/js/components/surveys/SurveyWizardRespondentsStep.jsx:61-73 | the new channels are the channels of the other types, unchanged and in order, then the selected one when there is one |
| WizardRespondents.InvalidRespondentsContent | web/static/js/components/surveys/SurveyWizardRespondentsStep.jsx:38-59 | there is a summary exactly when there is data |
| WizardRespondents.SummaryCounts | web/static/js/components/surveys/SurveyWizardRespondentsStep.jsx:38-59 | the first three line numbers are listed in order, the count of the others makes up the total, and the singular wording is used exactly for one entry |
| WizardRespondents.Uniq | web/static/js/components/surveys/SurveyWizardRespondentsStep.jsx:107 | lodash `uniq`: UniqKeepsEachOnce and UniqFirstOccurrences prove it keeps each element once, in the order of first occurrence |
| WizardRespondents.UniqKeepsEachOnce | web/static/js/components/surveys/SurveyWizardRespondentsStep.jsx:106-107 | `uniq` keeps every element exactly once and nothing else |
| WizardRespondents.UniqFirstOccurrences | web/static/js/components/surveys/SurveyWizardRespondentsStep.jsx:106-107 | `uniq` lists the elements in the order of their first occurrences, which with UniqKeepsEachOnce determines it |
| WizardRespondents.UniqOfDistinct | web/static/js/components/surveys/SurveyWizardRespondentsStep.jsx:106-107 | a list without repetitions is its own `uniq` |
| WizardRespondents.AllModes | web/static/js/components/surveys/SurveyWizardRespondentsStep.jsx:106-107 | a survey without modes offers none |
| WizardRespondents.AllModesListsEachOnce | web/static/js/components/surveys/SurveyWizardRespondentsStep.jsx:106-107 | a mode is listed exactly when some combination uses it, only once, and in the order of its first use, which is the order of the channel selectors |
| WizardRespondents.FlatModes | web/static/js/components/surveys/SurveyWizardRespondentsStep.jsx:107 | `flatMap(mode)`: FlatModesHolds proves it holds exactly the modes of the combinations |
| WizardRespondents.FlatModesHolds | web/static/js/components/surveys/SurveyWizardRespondentsStep.jsx:106-107 | the flattened modes hold exactly the modes of the combinations |
| Routes.JoinAppend | web/static/js/routes.jsx:67-84 | joining one more part adds the separator and the part |
| Routes.Path | web/static/js/routes.jsx:66-84 | a path from its segments: PathAppend, PathSegments and PathInjective prove the templates nest and that a path gives back its segments |
| Routes.PathAppend | web/static/js/routes.jsx:67-84 | a child path is its parent's path, a slash and one more segment |
| Routes.PathOne | web/static/js/routes.jsx:66-67 | a path of one segment is a slash and that segment |
| Routes.PathSegments | web/static/js/routes.jsx:66-84 | splitting a path at its slashes gives back its segments when none holds a slash |
| Routes.PathInjective | web/static/js/routes.jsx:66-84 | paths of slash-free segments are equal only when their segments are |
| Routes.Root | web/static/js/routes.jsx:66 | the root is '/' |
| Routes.Projects | web/static/js/routes.jsx:67 | the project list is /projects |
| Routes.NewProject | web/static/js/routes.jsx:68 | the new-project form is /projects/new |
| Routes.Project | web/static/js/routes.jsx:69 | a project is /projects/{id} |
| Routes.EditProject | web/static/js/routes.jsx:70 | a project's settings are /projects/{id}/edit |
| Routes.Surveys | web/static/js/routes.jsx:71 | a project's surveys are /projects/{id}/surveys |
| Routes.Survey | web/static/js/routes.jsx:72 | a survey is /projects/{p}/surveys/{s} |
| Routes.SurveyRespondents | web/static/js/routes.jsx:73 | a survey's respondents are /projects/{p}/surveys/{s}/respondents |
| Routes.EditSurvey | web/static/js/routes.jsx:74 | the survey wizard is /projects/{p}/surveys/{s}/edit |
| Routes.WizardStep | web/static/js/routes.jsx:75-79 | a wizard step is one more segment under the wizard |
| Routes.EditSurveyQuestionnaire | web/static/js/routes.jsx:75 | the questionnaire step of the wizard is its 'questionnaire' segment |
| Routes.EditSurveyRespondents | web/static/js/routes.jsx:76 | the respondents step of the wizard is its 'respondents' segment |
| Routes.EditSurveyChannels | web/static/js/routes.jsx:77 | the channels step of the wizard is its 'channels' segment |
| Routes.EditSurveySchedule | web/static/js/routes.jsx:78 | the schedule step of the wizard is its 'schedule' segment |
| Routes.EditSurveyCutoff | web/static/js/routes.jsx:79 | the cutoff step of the wizard is its 'cutoff' segment |
| Routes.Questionnaires | web/static/js/routes.jsx:80 | a project's questionnaires are /projects/{id}/questionnaires |
| Routes.NewQuestionnaire | web/static/js/routes.jsx:81 | the new-questionnaire form is /projects/{id}/questionnaires/new |
| Routes.Questionnaire | web/static/js/routes.jsx:82 | a questionnaire is /projects/{p}/questionnaires/{q} |
| Routes.EditQuestionnaire | web/static/js/routes.jsx:83 | the questionnaire editor is /projects/{p}/questionnaires/{q}/edit |
| Routes.Channels | web/static/js/routes.jsx:84 | the channel list is /channels |
| Routes.SurveyPathsUnderProject | web/static/js/routes.jsx:69-83 | every survey and questionnaire path extends its project's path, and every wizard step extends the survey's path |
| Routes.SurveyPathIdentifies | web/static/js/routes.jsx:72-79 | a survey path, and a wizard step path, split back into the project, the survey and the step |
| Routes.QuestionnairePathsDiffer | web/static/js/routes.jsx:82-83 | two questionnaire paths are equal exactly when they name the same project and questionnaire |
| Routes.NewProjectIsProjectNew | web/static/js/routes.jsx:68-69 | the new-project path is also the path of a project whose id is 'new', and the same holds for questionnaires |

## Left out

- Network and browser effects: the API calls and thunks of the action files, `dispatch`, the store subscription, rendering, translation of labels (`t`) and the `MessagesList` scrolling are not modelled. Each modelled operation receives what those would supply as parameters.
- The autosave middleware that consumes `AUTOSAVE` is not part of this model. Only the list itself is.
- Fresh ids (`uuid()` in ADD_STEP and ADD_LANGUAGE) are a `freshId` parameter.
- `console.log` in `setDefaultLanguage` and in the retries panel has no effect on state and is left out.
- Numbers are integers or NaN. Fractions, infinities and `-0` do not occur in the modelled data.
- Js.ParseInt reads decimal text only: leading blanks, a sign, then digits up to the first non-digit. A `0x` prefix is not read as hexadecimal.
- Js.ToNumber, used by loose equality, reads decimal integers only; fractional or exponent text reads as NaN.
- The language, audio-id and numeric-range actions are modelled as the reducer's handlers define them. `web/static/js/actions/questionnaire.js` defines no type constant for ADD_LANGUAGE, REMOVE_LANGUAGE, SET_DEFAULT_LANGUAGE, REORDER_LANGUAGES, CHANGE_STEP_AUDIO_ID_IVR, CHANGE_NUMERIC_RANGES or CHANGE_RANGE_SKIP_LOGIC. So in the code as written those `case` labels compare with `undefined`, and no creator in that file produces these actions. QuestionnaireActions.AutosavedEdits records which edits have a constant.
- QuestionnaireReducer.Reduce requires the step id of a step action to exist. With an unknown id, `findIndex` gives -1, and `changeStep` applies the edit to `undefined` and returns every step but the last, then the edited value, then every step again; that corrupted list is not modelled.
- QuestionnaireReducer.Reduce also excludes CHANGE_NUMERIC_RANGES on a step that is not numeric when the boundaries fail the check. The code then adds numeric fields to a step of another kind, which the step datatype cannot hold. When the check passes on such a step, the model throws, as `step.ranges.find` does.
- `state.steps == null` in the reducer is not modelled: a questionnaire always has a list of steps.
- NumericEditor.Editor.SkipLogicChange requires the index of a range the form shows, since the editor only calls it from a rendered range. An index outside the list would make the code spread `undefined` into a new range.
- NumericEditor.Editor.Submit: the three submit handlers are one method, because each builds the same action from the whole form.
- NumericEditor.Editor.Submit and NumericEditor.Editor.SkipLogicChange return the action the handler means to dispatch. As written, the handlers call `changeNumericRanges` (`web/static/js/components/questionnaires/StepNumericEditor.jsx:61`, `:70`, `:79`) and `changeRangeSkipLogic` (`:98`) from the bound `web/static/js/actions/questionnaire.js`, which defines neither, so each call throws a TypeError and no action reaches the reducer. The model does not capture that throw.
- ChartCount.CumulativeCount returns each count before the division by the target and the multiplication by 100, which are floating point.
- ChartCount.Reached returns the number reached, not the rounded percentage `Math.round(reached * 100 / targetValue)`.
- Dates in the respondents chart are the timestamps `Date.parse` gives. An unparsable date (NaN) is not modelled.
- IndexPages.SortByUpdate orders update times by Unicode code points, not by `localeCompare`'s locale rules. The server's ISO timestamps compare the same way under both.
- Object key order: the groups, respondents and folders are maps. The order of `Object.keys` over the respondents in `allFieldNames` is given as the order of the list of dictionaries. The keys of each responses dictionary do follow the object order: array indices first, ascending, then the other keys as first set.
- Languages.ReorderLanguages is the new state the reducer returns, and the reducer's dispatch uses it on questionnaire values. The in-place splice, which also reorders the previous state's `languageChoices`, is modelled only by Languages.ReorderLanguagesAsWritten on a separate array object, since the questionnaire datatype holds values and cannot share an array between states.
- ChatWindow and SmsSimulator: only the grouping into bubbles and each bubble's class are modelled. The markup of `MessageBulk` (links and trimming of the text) is not.
- SmsSimulator.Footer.HandleChange models only the `messageBody` field. Input names that would set other state fields are not modelled.
- Routes: ids are the text the template renders. Number formatting and the JSX route tree itself are not modelled.
- TranslationCsv.Offer records exported texts in a list. The code's `exported` is a plain object, so a text equal to a name inherited from `Object.prototype` (such as `constructor`) reads as already exported there and gets no row. The model exports such a text.

## Findings

| source | as written | input that shows it | evidently intended | confidence | as-written member | corrected member |
|---|---|---|---|---|---|---|
| web/static/js/components/questionnaires/StepNumericEditor.jsx:32-33 | the form keeps a stored bound as the number itself, and the reducer (`web/static/js/reducers/questionnaire.js:666-667`) reads any falsy bound as absent | a numeric step with minimum 0; the user edits the maximum and submits (once a `changeNumericRanges` creator exists: as written the submit throws first) | the minimum stays 0 | not executed | NumericEditor.ResubmitLoadedAsWritten | NumericEditor.ResubmitLoaded |
| web/static/js/reducers/folder.js:10-14 | `deleteFolder` deletes the key from the `folders` object that the shallow copy shares with the previous state | a state holding folder 7, then DELETED_FOLDER for 7 | only the new state loses the folder | not executed | Folders.PreviousStateLosesFolder | Folders.DeleteFolder |

In the first row, the corrected form holds each bound as its text (NumericEditor.BoundText), and NumericEditor.Editor.constructor uses it; NumericEditor.Editor.AsWritten is the form as written, and NumericEditor.ZeroBoundLost shows the lost minimum on its own. In the second, Folders.Reduce uses the corrected delete. Folders.DeleteFolderAsWritten models the code as written.

The voice-prompt row of the translation export is modelled as written. When a language has no voice prompt, the code's `map` callback evaluates `'""'` without returning it, so that cell is `undefined` (TranslationCsv.IvrRow).
