/** The survey action creators modelled: the quota variables action, whose options list, for each
    variable, the choice values of the questionnaire step that stores it. */
module SurveyActions {
  import opened Js
  import opened QuestionnaireModel
  import opened Fetch
  import SV = StoreValues

  /** A quota variable: the name of a stored answer. */
  datatype QuotaVar = QuotaVar(name: string)

  /** The options of SET_QUOTA_VARS: each variable's choice values, or undefined. */
  datatype SetQuotaVarsAction = SetQuotaVarsAction(vars: seq<QuotaVar>, options: map<string, Option<seq<string>>>)

  /** The `{projectId, id}` filters the survey tests use, and the answers they expect. These are
      five sample cases only: the survey's `shouldFetch` (web/static/js/actions/survey.js:76-78) is
      the same predicate as the questionnaire's, modelled once as Fetch.ShouldFetch, and the
      statement for all integer ids is Fetch.ShouldFetchOfIntegers. */
  lemma ShouldFetchTable<D>()
    ensures !ShouldFetch(FetchState<D>.FetchState(true, Some(Filter(1, Some(1))), None), JNum(Int(1)), JNum(Int(1)))
    ensures ShouldFetch(FetchState<D>.FetchState(true, None, None), JNum(Int(1)), JNum(Int(1)))
    ensures ShouldFetch(FetchState<D>.FetchState(true, Some(Filter(1, Some(1))), None), JNum(Int(2)), JNum(Int(2)))
    ensures ShouldFetch(FetchState<D>.FetchState(false, None, None), JNum(Int(1)), JNum(Int(1)))
    ensures ShouldFetch(FetchState<D>.FetchState(false, Some(Filter(1, Some(1))), None), JNum(Int(1)), JNum(Int(1)))
  {
  }

  /** `optionsFrom`: one property per variable, set in turn to the store values under its name. */
  method OptionsFrom(storeVars: seq<QuotaVar>, q: Questionnaire) returns (options: map<string, Option<seq<string>>>)
    ensures forall name :: name in options <==> exists v :: v in storeVars && v.name == name
    ensures forall name :: name in options ==>
      options[name] == (if name in SV.StepStoreValues(q) then Some(SV.StepStoreValues(q)[name]) else None)
  {
    var storeValues := SV.StepStoreValues(q);
    options := map[];
    var i := 0;
    while i < |storeVars|
      invariant 0 <= i <= |storeVars|
      invariant forall name :: name in options <==> exists v :: v in storeVars[..i] && v.name == name
      invariant forall name :: name in options ==>
        options[name] == (if name in storeValues then Some(storeValues[name]) else None)
    {
      var name := storeVars[i].name;
      options := options[name := if name in storeValues then Some(storeValues[name]) else None];
      assert storeVars[..i + 1] == storeVars[..i] + [storeVars[i]];
      i := i + 1;
    }
    assert storeVars[..i] == storeVars;
  }

  /** `setQuotaVars`: the variables unchanged, with their options. */
  method SetQuotaVars(vars: seq<QuotaVar>, q: Questionnaire) returns (action: SetQuotaVarsAction)
    ensures action.vars == vars
    ensures forall name :: name in action.options <==> exists v :: v in vars && v.name == name
    ensures forall name :: name in action.options ==>
      action.options[name] == (if name in SV.StepStoreValues(q) then Some(SV.StepStoreValues(q)[name]) else None)
  {
    var options := OptionsFrom(vars, q);
    action := SetQuotaVarsAction(vars, options);
  }
}
