/** Edits of a single step that the steps reducer applies at the position of the step's id,
    and the edits of the step list itself (adding and deleting steps). */
module StepEdits {
  import opened Js
  import opened QuestionnaireModel

  /** The multiple-choice step ADD_STEP appends, with a fresh id. */
  function NewMultipleChoiceStep(freshId: string): (s: Step)
    ensures s.id == freshId && s.title == "" && s.store == Some("")
    ensures s.prompt == Some(SeedPrompt()) && s.kind == MultipleChoice([])
  {
    Step(freshId, "", Some(""), Some(SeedPrompt()), MultipleChoice([]))
  }

  /** CHANGE_STEP_TITLE: the title is stored verbatim. */
  function ChangeTitle(step: Step, newTitle: string): (r: Step)
    ensures r.title == newTitle && r.(title := step.title) == step
  {
    step.(title := newTitle)
  }

  /** CHANGE_STEP_STORE: the variable name is stored verbatim. */
  function ChangeStore(step: Step, newStore: string): (r: Step)
    ensures r.store == Some(newStore) && r.(store := step.store) == step
  {
    step.(store := Some(newStore))
  }

  /** CHANGE_STEP_PROMPT_SMS: the SMS text of the default-language prompt. Reading a language of
      a step without a prompt is a TypeError; a missing language entry is created. */
  function ChangeSmsPrompt(step: Step, defaultLanguage: string, text: string): (r: Outcome<Step>)
    ensures r.Done? <==> step.prompt.Some?
    ensures r.Done? ==> r.value.(prompt := step.prompt) == step && r.value.prompt.Some?
    ensures r.Done? ==> defaultLanguage in r.value.prompt.value && r.value.prompt.value[defaultLanguage].sms == Some(text)
    ensures r.Done? ==> r.value.prompt.value == step.prompt.value[defaultLanguage := r.value.prompt.value[defaultLanguage]]
    ensures r.Done? && defaultLanguage in step.prompt.value ==>
      r.value.prompt.value[defaultLanguage].(sms := step.prompt.value[defaultLanguage].sms) == step.prompt.value[defaultLanguage]
  {
    match step.prompt
    case None => Thrown("TypeError: step.prompt is undefined")
    case Some(p) =>
      var base := if defaultLanguage in p then p[defaultLanguage] else LanguagePrompt(None, None, None);
      Done(step.(prompt := Some(p[defaultLanguage := base.(sms := Some(text))])))
  }

  /** The voice prompt of the default language after `edit`, or a TypeError when that language
      has no prompt entry. */
  function EditIvr(step: Step, defaultLanguage: string, edit: IvrPrompt -> IvrPrompt): (r: Outcome<Step>)
    ensures r.Done? <==> step.prompt.Some? && defaultLanguage in step.prompt.value
    ensures r.Done? ==> r.value.(prompt := step.prompt) == step && r.value.prompt.Some?
    ensures r.Done? ==> var before := step.prompt.value[defaultLanguage];
      r.value.prompt.value == step.prompt.value[defaultLanguage := before.(ivr := Some(edit(
        if before.ivr.Some? then before.ivr.value else IvrPrompt(None, None, None))))]
  {
    if step.prompt.None? || defaultLanguage !in step.prompt.value then Thrown("TypeError: step.prompt[defaultLanguage] is undefined")
    else
      var p := step.prompt.value;
      var before := p[defaultLanguage];
      var ivr := if before.ivr.Some? then before.ivr.value else IvrPrompt(None, None, None);
      Done(step.(prompt := Some(p[defaultLanguage := before.(ivr := Some(edit(ivr)))])))
  }

  /** CHANGE_STEP_PROMPT_IVR: new text and audio source, the audio id kept. */
  function ChangeIvrPrompt(step: Step, defaultLanguage: string, text: string, audioSource: string): (r: Outcome<Step>)
    ensures r.Done? <==> step.prompt.Some? && defaultLanguage in step.prompt.value
    ensures r.Done? ==> r.value.(prompt := step.prompt) == step
    ensures r.Done? ==> r.value.prompt.Some? && defaultLanguage in r.value.prompt.value
    ensures r.Done? ==> var ivr := r.value.prompt.value[defaultLanguage].ivr;
      && ivr.Some? && ivr.value.text == Some(text) && ivr.value.audioSource == Some(audioSource)
      && var before := step.prompt.value[defaultLanguage].ivr;
         ivr.value.audioId == (if before.Some? then before.value.audioId else None)
  {
    EditIvr(step, defaultLanguage, (ivr: IvrPrompt) => ivr.(text := Some(text), audioSource := Some(audioSource)))
  }

  /** CHANGE_STEP_AUDIO_ID_IVR: the uploaded audio replaces text-to-speech; the text is kept. */
  function ChangeIvrAudioId(step: Step, defaultLanguage: string, newId: string): (r: Outcome<Step>)
    ensures r.Done? <==> step.prompt.Some? && defaultLanguage in step.prompt.value
    ensures r.Done? ==> r.value.(prompt := step.prompt) == step
    ensures r.Done? ==> r.value.prompt.Some? && defaultLanguage in r.value.prompt.value
    ensures r.Done? ==> var ivr := r.value.prompt.value[defaultLanguage].ivr;
      && ivr.Some? && ivr.value.audioId == Some(newId) && ivr.value.audioSource == Some("upload")
      && var before := step.prompt.value[defaultLanguage].ivr;
         ivr.value.text == (if before.Some? then before.value.text else None)
  {
    EditIvr(step, defaultLanguage, (ivr: IvrPrompt) => ivr.(audioId := Some(newId), audioSource := Some("upload")))
  }

  /** CHANGE_STEP_TYPE: only id, title, prompt and store survive; the new kind starts empty.
      Any type other than multiple-choice and numeric throws. */
  function ChangeType(step: Step, stepType: string): (r: Outcome<Step>)
    ensures r.Done? <==> stepType == "multiple-choice" || stepType == "numeric"
    ensures r.Thrown? ==> r.message == "unknown step type: " + stepType
    ensures r.Done? ==> r.value.id == step.id && r.value.title == step.title
    ensures r.Done? ==> r.value.prompt == step.prompt && r.value.store == step.store
    ensures stepType == "multiple-choice" ==> r == Done(r.value) && r.value.kind == MultipleChoice([])
    ensures stepType == "numeric" ==> r == Done(r.value) && r.value.kind == Numeric(None, None, None, [Range(None, None, None)])
  {
    if stepType == "multiple-choice" then Done(Step(step.id, step.title, step.store, step.prompt, MultipleChoice([])))
    else if stepType == "numeric" then Done(Step(step.id, step.title, step.store, step.prompt, Numeric(None, None, None, [Range(None, None, None)])))
    else Thrown("unknown step type: " + stepType)
  }

  /** Changing the type twice to the same type is the same as once: the reset forgets everything
      the first change could have set. */
  lemma ChangeTypeIsIdempotent(step: Step, stepType: string)
    requires ChangeType(step, stepType).Done?
    ensures ChangeType(ChangeType(step, stepType).value, stepType) == ChangeType(step, stepType)
  {
  }

  /** `[...ranges.slice(0, i), {...ranges[i], skipLogic}, ...ranges.slice(i + 1)]`: a missing
      range yields one with absent bounds. */
  function WithSkipLogic(ranges: seq<Range>, skipLogic: Option<string>, rangeIndex: int): (r: seq<Range>)
    ensures 0 <= rangeIndex < |ranges| ==> r == ranges[rangeIndex := ranges[rangeIndex].(skipLogic := skipLogic)]
  {
    var previous := if 0 <= rangeIndex < |ranges| then ranges[rangeIndex] else Range(None, None, None);
    Slice(ranges, 0, rangeIndex) + [previous.(skipLogic := skipLogic)] + Slice(ranges, rangeIndex + 1, |ranges|)
  }

  /** CHANGE_RANGE_SKIP_LOGIC: the skip logic of one range; a step without ranges is a TypeError. */
  function ChangeRangeSkipLogic(step: Step, skipLogic: Option<string>, rangeIndex: int): (r: Outcome<Step>)
    ensures r.Done? <==> step.kind.Numeric?
    ensures r.Done? ==> r.value.kind.Numeric? && r.value.(kind := step.kind) == step
    ensures r.Done? ==> r.value.kind.(ranges := step.kind.ranges) == step.kind
    ensures r.Done? && 0 <= rangeIndex < |step.kind.ranges| ==>
      r.value.kind.ranges == step.kind.ranges[rangeIndex := step.kind.ranges[rangeIndex].(skipLogic := skipLogic)]
  {
    if !step.kind.Numeric? then Thrown("TypeError: step.ranges is undefined")
    else Done(step.(kind := step.kind.(ranges := WithSkipLogic(step.kind.ranges, skipLogic, rangeIndex))))
  }

  /** DELETE_STEP: `filter(steps, s => s.id != stepId)`. */
  function DeleteStep(steps: seq<Step>, stepId: string): (r: seq<Step>)
    ensures |r| <= |steps|
  {
    if steps == [] then []
    else (if steps[0].id == stepId then [] else [steps[0]]) + DeleteStep(steps[1..], stepId)
  }

  /** What DELETE_STEP keeps: every step with another id, and only those. */
  lemma {:induction false} DeleteStepKeeps(steps: seq<Step>, stepId: string)
    ensures forall k :: 0 <= k < |DeleteStep(steps, stepId)| ==>
      DeleteStep(steps, stepId)[k].id != stepId && DeleteStep(steps, stepId)[k] in steps
    ensures forall s :: s in steps && s.id != stepId ==> s in DeleteStep(steps, stepId)
  {
    if steps != [] {
      DeleteStepKeeps(steps[1..], stepId);
      var head: seq<Step> := if steps[0].id == stepId then [] else [steps[0]];
      var r := DeleteStep(steps, stepId);
      assert r == head + DeleteStep(steps[1..], stepId);
      forall s | s in steps && s.id != stepId
        ensures s in r
      {
        if s != steps[0] {
          assert s in steps[1..];
        }
      }
    }
  }

  /** One step of the filter. */
  lemma DeleteStepCons(x: Step, rest: seq<Step>, stepId: string)
    ensures DeleteStep([x] + rest, stepId) == (if x.id == stepId then [] else [x]) + DeleteStep(rest, stepId)
  {
    assert ([x] + rest)[1..] == rest;
  }

  /** Deletion keeps the order: it distributes over concatenation. */
  lemma {:induction false} DeleteStepAppend(a: seq<Step>, b: seq<Step>, stepId: string)
    ensures DeleteStep(a + b, stepId) == DeleteStep(a, stepId) + DeleteStep(b, stepId)
  {
    if a != [] {
      DeleteStepAppend(a[1..], b, stepId);
      assert a + b == [a[0]] + (a[1..] + b);
      assert a == [a[0]] + a[1..];
      DeleteStepCons(a[0], a[1..] + b, stepId);
      DeleteStepCons(a[0], a[1..], stepId);
    } else {
      assert a + b == b;
    }
  }

  /** Deleting an id no step has changes nothing. */
  lemma {:induction false} DeleteAbsentStep(steps: seq<Step>, stepId: string)
    requires !HasStep(steps, stepId)
    ensures DeleteStep(steps, stepId) == steps
  {
    if steps != [] {
      DeleteAbsentStep(steps[1..], stepId);
      assert steps[0].id != stepId;
    }
  }

  /** Deleting the id of a step appended to steps without it gives back those steps. */
  lemma DeleteAppendedStep(steps: seq<Step>, step: Step)
    requires !HasStep(steps, step.id)
    ensures DeleteStep(steps + [step], step.id) == steps
  {
    DeleteStepAppend(steps, [step], step.id);
    DeleteAbsentStep(steps, step.id);
    assert [step][1..] == [];
    assert steps + [] == steps;
  }
}
