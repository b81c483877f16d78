/** `stepStoreValues`: for every variable a multiple-choice step stores its answer in, the values
    of that step's choices. */
module StoreValues {
  import opened Js
  import opened QuestionnaireModel

  /** The property name `options[step.store]` writes: a step without a store writes "undefined". */
  function StoreKey(store: Option<string>): (key: string)
    ensures store.Some? ==> key == store.value
  {
    if store.Some? then store.value else "undefined"
  }

  /** The step at k is a multiple-choice step whose store writes the key. */
  predicate StoresAt(steps: seq<Step>, k: int, key: string)
    requires 0 <= k < |steps|
  {
    steps[k].kind.MultipleChoice? && StoreKey(steps[k].store) == key
  }

  /** The reduction over the multiple-choice steps, in order, each writing its choice values. */
  function StoreValuesOf(steps: seq<Step>): map<string, seq<string>> {
    if steps == [] then map[]
    else
      var init := StoreValuesOf(steps[..|steps| - 1]);
      var last := steps[|steps| - 1];
      if last.kind.MultipleChoice? then init[StoreKey(last.store) := ValuesOf(last.kind.choices)] else init
  }

  /** `stepStoreValues(questionnaire)` */
  function StepStoreValues(q: Questionnaire): map<string, seq<string>> {
    StoreValuesOf(q.steps)
  }

  /** The keys are exactly the stores of the multiple-choice steps. */
  lemma {:induction false} StoreValuesKeys(steps: seq<Step>, key: string)
    ensures key in StoreValuesOf(steps) <==> exists k :: 0 <= k < |steps| && StoresAt(steps, k, key)
  {
    if steps != [] {
      var init := steps[..|steps| - 1];
      StoreValuesKeys(init, key);
      assert forall k :: 0 <= k < |init| ==> (StoresAt(init, k, key) <==> StoresAt(steps, k, key));
      if StoresAt(steps, |steps| - 1, key) {
        assert key in StoreValuesOf(steps);
      } else {
        assert key in StoreValuesOf(steps) <==> key in StoreValuesOf(init);
        if exists k :: 0 <= k < |steps| && StoresAt(steps, k, key) {
          var k :| 0 <= k < |steps| && StoresAt(steps, k, key);
          assert StoresAt(init, k, key);
        }
      }
    }
  }

  /** The values under a key are those of the last multiple-choice step with that store. */
  lemma {:induction false} StoreValuesLastWins(steps: seq<Step>, k: nat, key: string)
    requires k < |steps| && StoresAt(steps, k, key)
    requires forall j :: k < j < |steps| ==> !StoresAt(steps, j, key)
    ensures key in StoreValuesOf(steps) && StoreValuesOf(steps)[key] == ValuesOf(steps[k].kind.choices)
  {
    var init := steps[..|steps| - 1];
    if k < |steps| - 1 {
      assert forall j :: k < j < |init| ==> (StoresAt(init, j, key) <==> StoresAt(steps, j, key));
      StoreValuesLastWins(init, k, key);
      assert !StoresAt(steps, |steps| - 1, key);
    }
  }

  /** Steps of any other kind add nothing: removing them does not change the result. */
  lemma {:induction false} OtherStepsIgnored(steps: seq<Step>, other: Step)
    requires !other.kind.MultipleChoice?
    ensures StoreValuesOf(steps + [other]) == StoreValuesOf(steps)
  {
    assert (steps + [other])[..|steps|] == steps;
  }
}
