/** The questionnaire store: the fetch lifecycle around the data reducer, with the validator run
    after every action on the resulting state. */
module QuestionnaireStore {
  import opened Js
  import opened QuestionnaireModel
  import opened Fetch
  import R = QuestionnaireReducer
  import V = Validation

  /** The store state: the lifecycle fields and the errors map the validator writes next to them
      (absent until the first validation with data). */
  datatype Store = Store(lifecycle: FetchState<Questionnaire>, errors: Option<V.Errors>)

  /** The actions the store handles: the two lifecycle actions and every edit of the data. */
  datatype Action =
    | FetchAction(projectId: JsValue, id: JsValue)
    | ReceiveAction(data: Questionnaire)
    | EditAction(op: R.Op)

  /** The filter of a received questionnaire. */
  function FilterOf(q: Questionnaire): (f: Filter)
    ensures f == Filter(q.projectId, q.id)
  {
    DefaultFilterOfIntegers(q.projectId, q.id);
    DefaultFilter(JNum(Int(q.projectId)), if q.id.Some? then JNum(Int(q.id.value)) else JNull)
  }

  /** What the reducer demands of an edit: the step it names exists in the present data. */
  predicate Accepts(s: Store, action: Action) {
    action.EditAction? && s.lifecycle.data.Some? ==> R.Applicable(s.lifecycle.data.value, action.op)
  }

  /** `validate` on the new state: without data the errors are left as they were; with data they
      are rebuilt from nothing. */
  function Validated(lifecycle: FetchState<Questionnaire>, errors: Option<V.Errors>): (r: Outcome<Store>)
    ensures lifecycle.data.None? ==> r == Done(Store(lifecycle, errors))
    ensures lifecycle.data.Some? ==> (r.Done? <==> V.Validate(lifecycle.data.value).Done?)
    ensures r.Done? ==> r.value.lifecycle == lifecycle
    ensures r.Done? && lifecycle.data.Some? ==> r.value.errors == Some(V.Validate(lifecycle.data.value).value)
  {
    match lifecycle.data
    case None => Done(Store(lifecycle, errors))
    case Some(q) =>
      match V.Validate(q)
      case Thrown(e) => Thrown(e)
      case Done(errs) => Done(Store(lifecycle, Some(errs)))
  }

  /** The exported reducer: `validateReducer(fetchReducer(actions, dataReducer))`. */
  function Reduce(s: Store, action: Action): (r: Outcome<Store>)
    requires Accepts(s, action)
  {
    var lifecycle :=
      match action
      case FetchAction(projectId, id) => Done(StartFetch(s.lifecycle, DefaultFilter(projectId, id)))
      case ReceiveAction(q) => Done(Receive(s.lifecycle, q, FilterOf(q)))
      case EditAction(op) => Pass(s.lifecycle, (q: Questionnaire) requires R.Applicable(q, op) => R.Reduce(q, op));
    match lifecycle
    case Thrown(e) => Thrown(e)
    case Done(l) => Validated(l, s.errors)
  }

  /** An edit leaves the lifecycle fields alone; without data it changes nothing, and with data it
      applies the data reducer. */
  lemma EditEffect(s: Store, op: R.Op)
    requires Accepts(s, EditAction(op))
    ensures s.lifecycle.data.None? ==> Reduce(s, EditAction(op)) == Done(s)
    ensures Reduce(s, EditAction(op)).Done? ==>
      var r := Reduce(s, EditAction(op)).value;
      && r.lifecycle.fetching == s.lifecycle.fetching && r.lifecycle.filter == s.lifecycle.filter
      && (s.lifecycle.data.Some? ==> r.lifecycle.data == Some(R.Reduce(s.lifecycle.data.value, op).value))
  {
  }

  /** The errors after any action depend on the new data only, never on the errors before. */
  lemma ErrorsRebuilt(s: Store, action: Action, stale: Option<V.Errors>)
    requires Accepts(s, action) && Reduce(s, action).Done?
    requires Reduce(s, action).value.lifecycle.data.Some?
    ensures Reduce(s.(errors := stale), action) == Reduce(s, action)
    ensures Reduce(s, action).value.errors == Some(V.Validate(Reduce(s, action).value.lifecycle.data.value).value)
  {
  }

  /** A FETCH for another questionnaire than the current one drops the data and keeps the errors
      of the last validated data. */
  lemma FetchOtherKeepsErrors(s: Store, projectId: JsValue, id: JsValue)
    requires s.lifecycle.filter != Some(DefaultFilter(projectId, id))
    ensures Reduce(s, FetchAction(projectId, id)) == Done(Store(FetchState(true, Some(DefaultFilter(projectId, id)), None), s.errors))
  {
  }

  /** RECEIVE of the questionnaire just requested stores it and validates it. */
  lemma ReceiveRequested(s: Store, q: Questionnaire)
    requires s.lifecycle.filter == Some(Filter(q.projectId, q.id))
    requires V.Validate(q).Done?
    ensures Reduce(s, ReceiveAction(q)) == Done(Store(FetchState(false, Some(Filter(q.projectId, q.id)), Some(q)), Some(V.Validate(q).value)))
  {
  }
}
