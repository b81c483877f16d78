/** Questionnaire-level edits: name, modes, and the languages together with the
    language-selection step the reducer keeps at position 0 once there are two or more. */
module Languages {
  import opened Js
  import opened QuestionnaireModel

  /** CHANGE_NAME: the name is stored verbatim. */
  function ChangeName(q: Questionnaire, newName: string): (r: Questionnaire)
    ensures r.name == newName && r.(name := q.name) == q
  {
    q.(name := newName)
  }

  /** TOGGLE_MODE: append the mode when absent, otherwise drop every occurrence of it. */
  function ToggleMode(q: Questionnaire, mode: string): (r: Questionnaire)
    ensures r.(modes := q.modes) == q
    ensures mode in r.modes <==> mode !in q.modes
    ensures forall m :: m != mode ==> (m in r.modes <==> m in q.modes)
    ensures mode !in q.modes ==> r.modes == q.modes + [mode]
  {
    if IndexOf(q.modes, mode) == -1 then q.(modes := q.modes + [mode])
    else q.(modes := Without(q.modes, mode))
  }

  /** Toggling a mode that is not enabled twice gives the questionnaire back. */
  lemma ToggleModeTwice(q: Questionnaire, mode: string)
    requires mode !in q.modes
    ensures ToggleMode(ToggleMode(q, mode), mode) == q
  {
    WithoutAppended(q.modes, mode);
    WithoutAbsent(q.modes, mode);
  }

  /** SET_DEFAULT_LANGUAGE changes the default language and nothing else; the active language is not touched. */
  function SetDefaultLanguage(q: Questionnaire, language: string): (r: Questionnaire)
    ensures r.defaultLanguage == language && r.activeLanguage == q.activeLanguage
    ensures r.(defaultLanguage := q.defaultLanguage) == q
  {
    q.(defaultLanguage := language)
  }

  /** The step ADD_LANGUAGE prepends when the second language arrives. */
  function NewLanguageSelectionStep(freshId: string, first: string, second: string): (s: Step)
    ensures s.id == freshId && s.title == "Language selection" && s.store == Some("")
    ensures s.prompt == Some(SeedPrompt())
    ensures s.kind == LanguageSelection([None, Some(first), Some(second)])
  {
    Step(freshId, "Language selection", Some(""), Some(SeedPrompt()), LanguageSelection([None, Some(first), Some(second)]))
  }

  /** `addOptionToLanguageSelectionStep`: append to steps[0].languageChoices. Reading steps[0]
      of no steps, or spreading the choices of a step of another kind, is a TypeError. */
  function AddOption(steps: seq<Step>, language: string): (r: Outcome<seq<Step>>)
    ensures r.Done? <==> |steps| > 0 && steps[0].kind.LanguageSelection?
    ensures r.Done? ==> r.value == steps[0 := steps[0].(kind := LanguageSelection(steps[0].kind.languageChoices + [Some(language)]))]
  {
    if |steps| == 0 then Thrown("TypeError: state.steps[0] is undefined")
    else if !steps[0].kind.LanguageSelection? then Thrown("TypeError: step.languageChoices is not iterable")
    else
      var k := FindStep(steps, steps[0].id);
      assert k == 0;
      Done(steps[k := steps[k].(kind := LanguageSelection(steps[k].kind.languageChoices + [Some(language)]))])
  }

  /** `removeOptionFromLanguageSelectionStep`: drop the language from steps[0].languageChoices,
      where an absent language makes the index -1 and the slices rotate the list instead. */
  function RemoveOption(steps: seq<Step>, language: string): (r: Outcome<seq<Step>>)
    ensures r.Done? <==> |steps| > 0
    ensures r.Done? && !steps[0].kind.LanguageSelection? ==> r.value == steps
    ensures r.Done? && steps[0].kind.LanguageSelection? ==>
      var choices := steps[0].kind.languageChoices;
      r.value == steps[0 := steps[0].(kind := LanguageSelection(RemoveAt(choices, IndexOf(choices, Some(language)))))]
  {
    if |steps| == 0 then Thrown("TypeError: state.steps[0] is undefined")
    else if !steps[0].kind.LanguageSelection? then Done(steps)
    else
      var choices := steps[0].kind.languageChoices;
      var index := IndexOf(choices, Some(language));
      Done(steps[0 := steps[0].(kind := LanguageSelection(RemoveAt(choices, index)))])
  }

  /** ADD_LANGUAGE */
  function AddLanguage(q: Questionnaire, language: string, freshId: string): (r: Outcome<Questionnaire>)
  {
    if IndexOf(q.languages, language) != -1 then Done(q)
    else
      var steps :=
        if |q.languages| == 1 then Done([NewLanguageSelectionStep(freshId, q.languages[0], language)] + q.steps)
        else AddOption(q.steps, language);
      match steps
      case Thrown(e) => Thrown(e)
      case Done(s) => Done(q.(steps := s, languages := q.languages + [language]))
  }

  /** REMOVE_LANGUAGE */
  function RemoveLanguage(q: Questionnaire, language: string): (r: Outcome<Questionnaire>)
  {
    var indexToDelete := IndexOf(q.languages, language);
    if indexToDelete == -1 then Done(q)
    else
      var newLanguages := RemoveAt(q.languages, indexToDelete);
      match RemoveOption(q.steps, language)
      case Thrown(e) => Thrown(e)
      case Done(newSteps) =>
        var steps := if |newLanguages| == 1 && |q.languages| > 1 then newSteps[1..] else newSteps;
        Done(q.(steps := steps, languages := newLanguages))
  }

  /** ADD_LANGUAGE of a known code changes nothing; of a new code it appends the code, and either
      prepends a selection step offering the first and the new language (from one language) or
      offers the new language in the existing selection step (from more). */
  lemma AddLanguageEffect(q: Questionnaire, language: string, freshId: string)
    ensures language in q.languages ==> AddLanguage(q, language, freshId) == Done(q)
    ensures language !in q.languages && AddLanguage(q, language, freshId).Done? ==>
      var r := AddLanguage(q, language, freshId).value;
      && r.languages == q.languages + [language]
      && r.(steps := q.steps, languages := q.languages) == q
    ensures language !in q.languages && |q.languages| == 1 ==>
      var r := AddLanguage(q, language, freshId);
      && r.Done?
      && r.value.steps == [NewLanguageSelectionStep(freshId, q.languages[0], language)] + q.steps
      && r.value.steps[0].kind.languageChoices == [None, Some(q.languages[0]), Some(language)]
    ensures language !in q.languages && |q.languages| != 1 ==>
      var r := AddLanguage(q, language, freshId);
      && (r.Done? <==> |q.steps| > 0 && q.steps[0].kind.LanguageSelection?)
      && (r.Done? ==> r.value.steps[0].kind.languageChoices == q.steps[0].kind.languageChoices + [Some(language)])
      && (r.Done? ==> r.value.steps[1..] == q.steps[1..])
  {
  }

  /** REMOVE_LANGUAGE of a code that is not in the languages changes nothing. */
  lemma RemoveAbsentLanguage(q: Questionnaire, language: string)
    requires language !in q.languages
    ensures RemoveLanguage(q, language) == Done(q)
  {
  }

  /** From a one-language questionnaire, adding a new language and removing it again restores
      the languages and the steps: the selection step added with the second language is dropped
      with it. */
  lemma {:induction false} AddThenRemoveLanguage(q: Questionnaire, language: string, freshId: string)
    requires |q.languages| == 1 && language !in q.languages
    ensures AddLanguage(q, language, freshId).Done?
    ensures RemoveLanguage(AddLanguage(q, language, freshId).value, language) == Done(q)
  {
    var added := AddLanguage(q, language, freshId).value;
    assert added.languages == [q.languages[0], language];
    assert IndexOf(added.languages, language) == 1;
    assert RemoveAt(added.languages, 1) == q.languages;
    var choices := added.steps[0].kind.languageChoices;
    assert choices == [None, Some(q.languages[0]), Some(language)];
    assert IndexOf(choices, Some(language)) == 2;
    var newSteps := RemoveOption(added.steps, language).value;
    assert newSteps[1..] == q.steps;
  }

  /** `choices.splice(index, 1); choices.splice(action.index, 0, language)` when present. */
  function ReorderedChoices(choices: seq<Option<string>>, language: string, index: int): (r: seq<Option<string>>)
    ensures IndexOf(choices, Some(language)) == -1 ==> r == choices
    ensures IndexOf(choices, Some(language)) != -1 ==> multiset(r) == multiset(choices)
    ensures IndexOf(choices, Some(language)) != -1 ==>
      |r| == |choices| && r[ClampIndex(index, |choices| - 1)] == Some(language)
  {
    var i := IndexOf(choices, Some(language));
    if i > -1 then
      var removed := RemoveAt(choices, i);
      assert choices == choices[..i] + [choices[i]] + choices[i + 1..];
      assert multiset(removed) + multiset{Some(language)} == multiset(choices);
      var k := ClampIndex(index, |removed|);
      assert removed == removed[..k] + removed[k..];
      assert multiset(InsertAt(removed, index, Some(language))) == multiset(removed) + multiset{Some(language)};
      InsertAt(removed, index, Some(language))
    else choices
  }

  /** REORDER_LANGUAGES: move a language of the selection step to a new position. */
  function ReorderLanguages(q: Questionnaire, language: string, index: int): (r: Outcome<Questionnaire>)
    ensures r.Done? <==> |q.steps| > 0
    ensures r.Done? && !q.steps[0].kind.LanguageSelection? ==> r.value == q
    ensures r.Done? && q.steps[0].kind.LanguageSelection? ==>
      r.value == q.(steps := q.steps[0 := q.steps[0].(kind := LanguageSelection(
        ReorderedChoices(q.steps[0].kind.languageChoices, language, index)))])
  {
    if |q.steps| == 0 then Thrown("TypeError: state.steps[0] is undefined")
    else if !q.steps[0].kind.LanguageSelection? then Done(q)
    else
      var choices := ReorderedChoices(q.steps[0].kind.languageChoices, language, index);
      Done(q.(steps := q.steps[0 := q.steps[0].(kind := LanguageSelection(choices))]))
  }

  /** The `languageChoices` array of the selection step: one object that every state spread
      from the questionnaire holding it shares. */
  class ChoicesArray {
    var items: seq<Option<string>>

    constructor (items: seq<Option<string>>)
      ensures this.items == items
    {
      this.items := items;
    }
  }

  /** A questionnaire whose selection step holds `choices`, read through that array. */
  function Through(q: Questionnaire, choices: ChoicesArray): Questionnaire
    reads choices
  {
    if |q.steps| > 0 && q.steps[0].kind.LanguageSelection? then
      q.(steps := q.steps[0 := q.steps[0].(kind := LanguageSelection(choices.items))])
    else q
  }

  /** `reorderLanguages` as written: both splices work on the array the previous state holds, so
      the new state is what REORDER_LANGUAGES computes and the previous state now reads the same. */
  method ReorderLanguagesAsWritten(q: Questionnaire, choices: ChoicesArray, language: string, index: int)
    returns (r: Outcome<Questionnaire>)
    modifies choices
    ensures r == ReorderLanguages(old(Through(q, choices)), language, index)
    ensures r.Done? ==> Through(q, choices) == r.value
    ensures !(|q.steps| > 0 && q.steps[0].kind.LanguageSelection?) ==> choices.items == old(choices.items)
  {
    if |q.steps| == 0 {
      return Thrown("TypeError: state.steps[0] is undefined");
    }
    if !q.steps[0].kind.LanguageSelection? {
      return Done(q);
    }
    ghost var previous := choices.items;
    ghost var before := Through(q, choices);
    assert before.steps[0].kind.languageChoices == previous;
    var i := IndexOf(choices.items, Some(language));
    if i > -1 {
      choices.items := RemoveAt(choices.items, i);
      choices.items := InsertAt(choices.items, index, Some(language));
    }
    assert choices.items == ReorderedChoices(previous, language, index);
    r := Done(Through(q, choices));
    assert r.value.steps == before.steps[0 := before.steps[0].(kind := LanguageSelection(choices.items))];
  }

  /** A state whose selection step offers English then Spanish offers Spanish first once a
      REORDER_LANGUAGES moving Spanish to position 1 has been reduced from it. */
  method PreviousStateReordered() returns (before: seq<Option<string>>, after: seq<Option<string>>)
    ensures before == [None, Some("en"), Some("es")]
    ensures after == [None, Some("es"), Some("en")]
  {
    var choices := new ChoicesArray([None, Some("en"), Some("es")]);
    var step := Step("lang", "Language selection", Some(""), None, LanguageSelection(choices.items));
    var previous := Questionnaire(Some(1), 1, "Survey", [], ["en", "es"], "en", "en", [step]);
    before := Through(previous, choices).steps[0].kind.languageChoices;
    var next := ReorderLanguagesAsWritten(previous, choices, "es", 1);
    after := Through(previous, choices).steps[0].kind.languageChoices;
  }
}
