/** The choices of a multiple-choice step: adding and deleting them, and CHANGE_CHOICE with its
    comma-separated token lists and the autocomplete that copies tokens from an existing choice. */
module Choices {
  import opened Js
  import opened QuestionnaireModel

  // ---------------------------------------------------------------------------
  // Token lists

  /** A token as `splitValues` produces it: non-empty, free of commas, with no blank at either end. */
  predicate CleanToken(t: string) {
    t != [] && ',' !in t && !IsSpace(t[0]) && !IsSpace(t[|t| - 1])
  }

  /** `parts.map(r => r.trim())` */
  function TrimAll(parts: seq<string>): (r: seq<string>)
    ensures |r| == |parts|
    ensures forall j :: 0 <= j < |parts| ==> r[j] == Trim(parts[j])
  {
    seq(|parts|, j requires 0 <= j < |parts| => Trim(parts[j]))
  }

  /** `xs.filter(r => r.length != 0)` */
  function NonEmpty(xs: seq<string>): (r: seq<string>)
    ensures |r| <= |xs|
    ensures forall k :: 0 <= k < |r| ==> r[k] != [] && r[k] in xs
  {
    if xs == [] then []
    else (if xs[0] == [] then [] else [xs[0]]) + NonEmpty(xs[1..])
  }

  /** A trimmed text that is not empty starts and ends with a non-blank. */
  lemma TrimmedEnds(s: string)
    ensures Trim(s) != [] ==> !IsSpace(Trim(s)[0]) && !IsSpace(Trim(s)[|Trim(s)| - 1])
  {
    var t := TrimStart(s);
    var r := TrimEnd(t);
    if r != [] {
      assert r[0] == t[0];
    }
  }

  /** Every non-empty trimmed part of a comma-split text is a clean token. */
  lemma TrimmedPartsAreClean(parts: seq<string>)
    requires forall j :: 0 <= j < |parts| ==> ',' !in parts[j]
    ensures forall k :: 0 <= k < |NonEmpty(TrimAll(parts))| ==> CleanToken(NonEmpty(TrimAll(parts))[k])
  {
    var r := NonEmpty(TrimAll(parts));
    forall k | 0 <= k < |r|
      ensures CleanToken(r[k])
    {
      var j :| 0 <= j < |parts| && TrimAll(parts)[j] == r[k];
      TrimKeepsOut(parts[j], ',');
      TrimmedEnds(parts[j]);
    }
  }

  /** `values.split(',').map(r => r.trim()).filter(r => r.length != 0)` */
  function SplitValues(values: string): (r: seq<string>)
    ensures forall k :: 0 <= k < |r| ==> CleanToken(r[k])
  {
    TrimmedPartsAreClean(Split(values, ','));
    NonEmpty(TrimAll(Split(values, ',')))
  }

  /** Trimming clean tokens changes none of them. */
  lemma TrimAllOfClean(tokens: seq<string>)
    requires forall k :: 0 <= k < |tokens| ==> CleanToken(tokens[k])
    ensures TrimAll(tokens) == tokens
  {
    forall k | 0 <= k < |tokens|
      ensures Trim(tokens[k]) == tokens[k]
    {
      TrimmedIsFixed(tokens[k]);
    }
  }

  /** Filtering out empty texts keeps a list that has none. */
  lemma {:induction false} NonEmptyOfFilled(xs: seq<string>)
    requires forall k :: 0 <= k < |xs| ==> xs[k] != []
    ensures NonEmpty(xs) == xs
  {
    if xs != [] {
      NonEmptyOfFilled(xs[1..]);
    }
  }

  lemma NonEmptyOfClean(tokens: seq<string>)
    requires forall k :: 0 <= k < |tokens| ==> CleanToken(tokens[k])
    ensures NonEmpty(TrimAll(tokens)) == tokens
  {
    TrimAllOfClean(tokens);
    NonEmptyOfFilled(tokens);
  }

  /** Joining clean tokens with ',' and parsing the text again gives the same tokens. */
  lemma {:induction false} SplitValuesOfJoin(tokens: seq<string>)
    requires forall k :: 0 <= k < |tokens| ==> CleanToken(tokens[k])
    ensures SplitValues(Join(tokens, ",")) == tokens
  {
    if tokens == [] {
      assert Split("", ',') == [""];
      TrimmedIsFixed("");
      assert TrimAll([""]) == [""];
    } else {
      SplitJoin(tokens, ',');
      NonEmptyOfClean(tokens);
    }
  }

  /** Parsing is idempotent: a parsed list, written back with ',' and parsed again, is unchanged. */
  lemma SplitValuesIsIdempotent(values: string)
    ensures SplitValues(Join(SplitValues(values), ",")) == SplitValues(values)
  {
    SplitValuesOfJoin(SplitValues(values));
  }

  // ---------------------------------------------------------------------------
  // Autocomplete

  predicate ChoiceMatches(steps: seq<Step>, i: int, j: int, value: string) {
    && 0 <= i < |steps|
    && steps[i].kind.MultipleChoice?
    && 0 <= j < |steps[i].kind.choices|
    && steps[i].kind.choices[j].value == value
  }

  /** The position of the first choice whose value is `value`, scanning steps in order and,
      within a multiple-choice step, its choices in order. */
  function FirstMatch(steps: seq<Step>, value: string): (r: Option<(nat, nat)>)
    ensures r.None? <==> forall i, j :: !ChoiceMatches(steps, i, j, value)
    ensures r.Some? ==> ChoiceMatches(steps, r.value.0, r.value.1, value)
    ensures r.Some? ==> forall i, j :: 0 <= i < r.value.0 ==> !ChoiceMatches(steps, i, j, value)
    ensures r.Some? ==> forall j :: 0 <= j < r.value.1 ==> !ChoiceMatches(steps, r.value.0, j, value)
    decreases |steps|
  {
    if steps == [] then None
    else
      var j := if steps[0].kind.MultipleChoice? then FirstChoice(steps[0].kind.choices, value) else -1;
      if j >= 0 then
        assert ChoiceMatches(steps, 0, j, value);
        assert forall j' :: 0 <= j' < j ==> !ChoiceMatches(steps, 0, j', value);
        Some((0, j))
      else
        var rest := FirstMatch(steps[1..], value);
        assert forall i, j :: ChoiceMatches(steps[1..], i, j, value) <==> ChoiceMatches(steps, i + 1, j, value);
        assert forall j :: !ChoiceMatches(steps, 0, j, value);
        assert forall i, j :: ChoiceMatches(steps, i, j, value) ==> i > 0 && ChoiceMatches(steps[1..], i - 1, j, value);
        if rest.None? then None
        else
          Some((rest.value.0 + 1, rest.value.1))
  }

  /** The position of the first choice with the value, or -1. */
  function FirstChoice(choices: seq<Choice>, value: string): (j: int)
    ensures -1 <= j < |choices|
    ensures j >= 0 ==> choices[j].value == value && forall k :: 0 <= k < j ==> choices[k].value != value
    ensures j == -1 ==> forall k :: 0 <= k < |choices| ==> choices[k].value != value
  {
    if choices == [] then -1
    else if choices[0].value == value then 0
    else
      var k := FirstChoice(choices[1..], value);
      if k == -1 then -1 else k + 1
  }

  /** The CSV pair autoComplete returns: the default-language SMS and IVR tokens of the first
      matching choice joined with ',', or two empty texts when nothing matches. Reading the
      tokens of a match that has none in the default language is a TypeError. */
  function AutoCompleted(steps: seq<Step>, value: string, defaultLanguage: string): (r: Outcome<(string, string)>)
  {
    match FirstMatch(steps, value)
    case None => Done(("", ""))
    case Some((i, j)) =>
      var responses := steps[i].kind.choices[j].responses;
      if defaultLanguage in responses && responses[defaultLanguage].sms.Some? && responses[defaultLanguage].ivr.Some? then
        Done((Join(responses[defaultLanguage].sms.value, ","), Join(responses[defaultLanguage].ivr.value, ",")))
      else Thrown("TypeError: cannot read the responses of the matching choice")
  }

  /** The source's scan: every step, every choice, with a `setted` flag that stops later matches. */
  method AutoComplete(steps: seq<Step>, value: string, defaultLanguage: string) returns (r: Outcome<(string, string)>)
    ensures r == AutoCompleted(steps, value, defaultLanguage)
  {
    var setted := false;
    var smsValues := "";
    var ivrValues := "";
    var i := 0;
    while i < |steps|
      invariant 0 <= i <= |steps|
      invariant !setted ==> smsValues == "" && ivrValues == ""
      invariant !setted ==> forall i', j :: i' < i ==> !ChoiceMatches(steps, i', j, value)
      invariant setted ==> FirstMatch(steps, value).Some? && AutoCompleted(steps, value, defaultLanguage) == Done((smsValues, ivrValues))
    {
      var step := steps[i];
      if step.kind.MultipleChoice? && !setted {
        var j := 0;
        while j < |step.kind.choices|
          invariant 0 <= j <= |step.kind.choices|
          invariant !setted ==> smsValues == "" && ivrValues == ""
          invariant !setted ==> forall j' :: 0 <= j' < j ==> !ChoiceMatches(steps, i, j', value)
          invariant setted ==> FirstMatch(steps, value).Some? && AutoCompleted(steps, value, defaultLanguage) == Done((smsValues, ivrValues))
        {
          var choice := step.kind.choices[j];
          if choice.value == value && !setted {
            setted := true;
            FirstMatchIsUnique(steps, value, i, j);
            if defaultLanguage !in choice.responses || choice.responses[defaultLanguage].sms.None? || choice.responses[defaultLanguage].ivr.None? {
              return Thrown("TypeError: cannot read the responses of the matching choice");
            }
            smsValues := Join(choice.responses[defaultLanguage].sms.value, ",");
            ivrValues := Join(choice.responses[defaultLanguage].ivr.value, ",");
          }
          j := j + 1;
        }
      }
      assert !setted ==> forall j :: !ChoiceMatches(steps, i, j, value);
      i := i + 1;
    }
    assert !setted ==> forall i', j :: !ChoiceMatches(steps, i', j, value);
    r := Done((smsValues, ivrValues));
  }

  /** A match with no match before it, in step then choice order, is the first match. */
  lemma FirstMatchIsUnique(steps: seq<Step>, value: string, i: nat, j: nat)
    requires ChoiceMatches(steps, i, j, value)
    requires forall i', j' :: i' < i ==> !ChoiceMatches(steps, i', j', value)
    requires forall j' :: 0 <= j' < j ==> !ChoiceMatches(steps, i, j', value)
    ensures FirstMatch(steps, value) == Some((i, j))
  {
  }

  // ---------------------------------------------------------------------------
  // Choice edits on one step

  /** The choice ADD_CHOICE appends: an empty value, empty token lists under 'en', no skip logic. */
  function BlankChoice(): (c: Choice)
    ensures c.value == "" && c.skipLogic.None? && c.responses.Keys == {"en"}
    ensures c.responses["en"] == Responses(Some([]), Some([]), None)
  {
    Choice("", map["en" := Responses(Some([]), Some([]), None)], None)
  }

  /** ADD_CHOICE on the targeted step: spreading `step.choices` of any other kind is a TypeError. */
  function AddChoice(step: Step): (r: Outcome<Step>)
    ensures r.Done? <==> step.kind.MultipleChoice?
    ensures r.Done? ==> r.value.kind == MultipleChoice(step.kind.choices + [BlankChoice()])
    ensures r.Done? ==> r.value.(kind := step.kind) == step
  {
    if step.kind.MultipleChoice? then Done(step.(kind := MultipleChoice(step.kind.choices + [BlankChoice()])))
    else Thrown("TypeError: step.choices is not iterable")
  }

  /** DELETE_CHOICE: `[...choices.slice(0, index), ...choices.slice(index + 1)]`. */
  function DeleteChoice(step: Step, index: int): (r: Outcome<Step>)
    ensures r.Done? <==> step.kind.MultipleChoice?
    ensures r.Done? ==> r.value.kind.MultipleChoice? && r.value.(kind := step.kind) == step
    ensures r.Done? && 0 <= index < |step.kind.choices| ==>
      r.value.kind.choices == step.kind.choices[..index] + step.kind.choices[index + 1..]
    ensures r.Done? && (index >= |step.kind.choices| || index < -|step.kind.choices| || step.kind.choices == []) ==>
      r.value == step
    ensures r.Done? && -|step.kind.choices| <= index < -1 ==>
      var n := |step.kind.choices|;
      r.value.kind.choices == step.kind.choices[..n + index] + step.kind.choices[n + index + 1..]
    ensures r.Done? && index == -1 && step.kind.choices != [] ==>
      var n := |step.kind.choices|;
      r.value.kind.choices == step.kind.choices[..n - 1] + step.kind.choices
  {
    if step.kind.MultipleChoice? then Done(step.(kind := MultipleChoice(RemoveAt(step.kind.choices, index))))
    else Thrown("TypeError: step.choices is undefined")
  }

  /** Deleting the choice just added restores the step. */
  lemma {:induction false} DeleteAddedChoice(step: Step)
    requires step.kind.MultipleChoice?
    ensures AddChoice(step).Done?
    ensures DeleteChoice(AddChoice(step).value, |step.kind.choices|) == Done(step)
  {
    var added := AddChoice(step).value;
    var n := |step.kind.choices|;
    assert added.kind.choices[..n] + added.kind.choices[n + 1..] == step.kind.choices;
    assert step.kind == MultipleChoice(step.kind.choices);
  }

  /** The payload of CHANGE_CHOICE. */
  datatype ChoiceChange = ChoiceChange(
    index: int,
    response: string,
    smsValues: string,
    ivrValues: string,
    skipLogic: Option<string>,
    autoComplete: bool)

  /** The SMS and IVR texts CHANGE_CHOICE parses: the given ones, or, when autocomplete is on
      and both are empty, the texts copied from the first choice with the same value. */
  function ChoiceTexts(steps: seq<Step>, change: ChoiceChange, defaultLanguage: string): Outcome<(string, string)> {
    if change.autoComplete && change.smsValues == "" && change.ivrValues == "" then
      AutoCompleted(steps, change.response, defaultLanguage)
    else Done((change.smsValues, change.ivrValues))
  }

  /** The choice CHANGE_CHOICE writes over `previous`: new value and skip logic, and under the
      literal key 'en' the default-language responses with both token lists replaced. */
  function ChangedChoice(previous: Choice, change: ChoiceChange, texts: (string, string), defaultLanguage: string): (c: Choice)
    ensures c.value == change.response && c.skipLogic == change.skipLogic
    ensures "en" in c.responses && c.responses == previous.responses["en" := c.responses["en"]]
    ensures c.responses["en"].sms == Some(SplitValues(texts.0))
    ensures c.responses["en"].ivr == Some(SplitValues(texts.1))
    ensures c.responses["en"].mobileweb == if defaultLanguage in previous.responses then previous.responses[defaultLanguage].mobileweb else None
  {
    var base := if defaultLanguage in previous.responses then previous.responses[defaultLanguage] else Responses(None, None, None);
    var en := base.(sms := Some(SplitValues(texts.0)), ivr := Some(SplitValues(texts.1)));
    Choice(change.response, previous.responses["en" := en], change.skipLogic)
  }

  /** CHANGE_CHOICE on the step at `k`: a TypeError when the step has no choices or when the
      index names no choice. */
  function ChangeChoice(step: Step, change: ChoiceChange, texts: (string, string), defaultLanguage: string): (r: Outcome<Step>)
    ensures r.Done? <==> step.kind.MultipleChoice? && 0 <= change.index < |step.kind.choices|
    ensures r.Done? ==> r.value.kind.MultipleChoice? && r.value.(kind := step.kind) == step
    ensures r.Done? ==>
      r.value.kind.choices == step.kind.choices[change.index := ChangedChoice(step.kind.choices[change.index], change, texts, defaultLanguage)]
  {
    if !step.kind.MultipleChoice? then Thrown("TypeError: step.choices is undefined")
    else if !(0 <= change.index < |step.kind.choices|) then Thrown("TypeError: the changed choice is undefined")
    else
      var choices := step.kind.choices;
      var c := ChangedChoice(choices[change.index], change, texts, defaultLanguage);
      Done(step.(kind := MultipleChoice(choices[change.index := c])))
  }

  /** With autocomplete on and both texts empty, the new 'en' token lists are those of the first
      matching choice in the default language; with no match they are empty. */
  lemma {:induction false} AutoCompleteCopiesTokens(steps: seq<Step>, change: ChoiceChange, defaultLanguage: string)
    requires change.autoComplete && change.smsValues == "" && change.ivrValues == ""
    requires ChoiceTexts(steps, change, defaultLanguage).Done?
    ensures var texts := ChoiceTexts(steps, change, defaultLanguage).value;
      match FirstMatch(steps, change.response)
      case None => SplitValues(texts.0) == [] && SplitValues(texts.1) == []
      case Some((i, j)) =>
        var source := steps[i].kind.choices[j].responses[defaultLanguage];
        && ((forall k :: 0 <= k < |source.sms.value| ==> CleanToken(source.sms.value[k])) ==> SplitValues(texts.0) == source.sms.value)
        && ((forall k :: 0 <= k < |source.ivr.value| ==> CleanToken(source.ivr.value[k])) ==> SplitValues(texts.1) == source.ivr.value)
  {
    match FirstMatch(steps, change.response)
    case None =>
      SplitValuesOfJoin([]);
    case Some((i, j)) =>
      var source := steps[i].kind.choices[j].responses[defaultLanguage];
      if forall k :: 0 <= k < |source.sms.value| ==> CleanToken(source.sms.value[k]) {
        SplitValuesOfJoin(source.sms.value);
      }
      if forall k :: 0 <= k < |source.ivr.value| ==> CleanToken(source.ivr.value[k]) {
        SplitValuesOfJoin(source.ivr.value);
      }
  }
}
