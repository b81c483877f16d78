/** The fetch lifecycle every document store wraps around its data reducer: FETCH records the
    filter of the request, RECEIVE accepts a document only for the current filter, and any
    other action goes to the data reducer while there is data. */
module Fetch {
  import opened Js

  /** What a request or a received document is about: its project and its own id (absent for a
      list or a new document). */
  datatype Filter = Filter(projectId: int, id: Option<int>)

  /** The lifecycle fields of a store; `filter` and `data` are null until the first FETCH. */
  datatype FetchState<D> = FetchState(fetching: bool, filter: Option<Filter>, data: Option<D>)

  /** `initialState` */
  function Initial<D>(): (s: FetchState<D>)
    ensures !s.fetching && s.filter.None? && s.data.None?
  {
    FetchState(false, None, None)
  }

  /** `defaultFilterProvider`: both ids as integers, a null (or undefined) id kept null. */
  function DefaultFilter(projectId: JsValue, id: JsValue): (f: Filter)
    ensures f.id.None? <==> id.JNull?
    ensures f.projectId == ToInteger(projectId)
    ensures f.id.Some? ==> f.id.value == ToInteger(id)
  {
    Filter(ToInteger(projectId), if id.JNull? then None else Some(ToInteger(id)))
  }

  /** The filter of numeric ids is those ids. */
  lemma DefaultFilterOfIntegers(projectId: int, id: Option<int>)
    ensures DefaultFilter(JNum(Int(projectId)), if id.Some? then JNum(Int(id.value)) else JNull) == Filter(projectId, id)
  {
  }

  /** `fetch`: start fetching for a new filter; the data survives only a request for the same one. */
  function StartFetch<D>(state: FetchState<D>, newFilter: Filter): (r: FetchState<D>)
    ensures r.fetching && r.filter == Some(newFilter)
    ensures r.data == (if state.filter == Some(newFilter) then state.data else None)
  {
    var newData := if state.filter == Some(newFilter) then state.data else None;
    state.(fetching := true, filter := Some(newFilter), data := newData)
  }

  /** `receive`: a document for the current filter is stored and ends the fetch; one for another
      filter (a superseded request) leaves the state as it was. */
  function Receive<D>(state: FetchState<D>, data: D, dataFilter: Filter): (r: FetchState<D>)
    ensures state.filter == Some(dataFilter) ==> r == FetchState(false, state.filter, Some(data))
    ensures state.filter != Some(dataFilter) ==> r == state
  {
    if state.filter == Some(dataFilter) then state.(fetching := false, data := Some(data))
    else state
  }

  /** The default branch: the data reducer runs on present data only; what it throws propagates. */
  function Pass<D>(state: FetchState<D>, reduce: D --> Outcome<D>): (r: Outcome<FetchState<D>>)
    requires state.data.Some? ==> reduce.requires(state.data.value)
    ensures state.data.None? ==> r == Done(state)
    ensures state.data.Some? ==> (r.Done? <==> reduce(state.data.value).Done?)
    ensures r.Done? ==> r.value.fetching == state.fetching && r.value.filter == state.filter
    ensures r.Done? && state.data.Some? ==> r.value.data == Some(reduce(state.data.value).value)
  {
    match state.data
    case None => Done(state)
    case Some(d) =>
      match reduce(d)
      case Thrown(e) => Thrown(e)
      case Done(d') => Done(state.(data := Some(d')))
  }

  /** A request followed by the response to it leaves the document stored and the fetch over. */
  lemma FetchThenReceive<D>(state: FetchState<D>, f: Filter, data: D)
    ensures Receive(StartFetch(state, f), data, f) == FetchState(false, Some(f), Some(data))
  {
  }

  /** The response to a request that a later request for another filter superseded is dropped:
      the state stays that of the later request, with no data. */
  lemma StaleResponseDropped<D>(state: FetchState<D>, first: Filter, second: Filter, data: D)
    requires first != second
    ensures Receive(StartFetch(StartFetch(state, first), second), data, first) == FetchState(true, Some(second), None)
  {
  }

  /** Re-requesting the current filter keeps the document on display while it is fetched again. */
  lemma RefetchKeepsData<D>(state: FetchState<D>, f: Filter)
    requires state.filter == Some(f)
    ensures StartFetch(state, f).data == state.data
  {
  }

  /** A store field as the loose comparisons of `shouldFetch` see it. */
  function IdValue(id: Option<int>): (v: JsValue)
    ensures id.None? <==> v.JNull?
  {
    if id.Some? then JNum(Int(id.value)) else JNull
  }

  /** `shouldFetch`, written the same in the questionnaire and the survey actions: fetch unless a
      fetch for the same project and id is under way. */
  predicate ShouldFetch<D>(state: FetchState<D>, projectId: JsValue, id: JsValue) {
    !state.fetching
    || !(state.filter.Some?
         && LooseEquals(JNum(Int(state.filter.value.projectId)), projectId)
         && LooseEquals(IdValue(state.filter.value.id), id))
  }

  /** With numeric ids, no fetch is needed exactly when one for those ids is under way; with no
      fetch under way or no filter yet, a fetch is always needed. */
  lemma ShouldFetchOfIntegers<D>(state: FetchState<D>, projectId: int, id: int)
    ensures !ShouldFetch(state, JNum(Int(projectId)), JNum(Int(id))) <==>
      state.fetching && state.filter == Some(Filter(projectId, Some(id)))
    ensures !state.fetching || state.filter.None? ==> ShouldFetch(state, JNum(Int(projectId)), JNum(Int(id)))
  {
  }
}
