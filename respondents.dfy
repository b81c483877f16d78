/** The respondents store of a survey: one page of respondents, the survey and page it was asked
    for, the sort order, and the respondents written one by one at the top level. */
module Respondents {
  import opened Js

  /** One answer of a respondent; a question not answered has a null value. */
  datatype Response = Response(name: string, value: Option<string>)

  datatype Respondent = Respondent(id: int, phoneNumber: string, mode: seq<string>, disposition: string,
                                   date: Option<string>, responses: seq<Response>)

  datatype Page = Page(number: int, size: int, totalCount: int)

  /** `byId` holds the entries CREATE_RESPONDENT and UPDATE_RESPONDENT add beside the other fields
      of the state, keyed by the respondent id. */
  datatype RespondentsState = RespondentsState(fetching: bool, items: Option<map<int, Respondent>>, surveyId: JsValue,
                                               sortBy: Option<string>, sortAsc: bool, page: Page,
                                               byId: map<int, Respondent>)

  datatype Action =
    | FetchRespondents(surveyId: JsValue, page: int)
    | CreateRespondent(id: int, respondent: Respondent)
    | UpdateRespondent(id: int, respondent: Respondent)
    | ReceiveRespondents(surveyId: JsValue, page: int, respondents: map<int, Respondent>, respondentsCount: int)
    | Other

  /** `initialState`: page 1 of five, nothing counted yet. */
  function Initial(): (s: RespondentsState)
    ensures !s.fetching && s.items.None? && s.surveyId == JNull && s.sortBy.None? && s.sortAsc
    ensures s.page == Page(1, 5, 0) && s.byId == map[]
  {
    RespondentsState(false, None, JNull, None, true, Page(1, 5, 0), map[])
  }

  /** `fetchRespondents`: the items survive only a request for the same survey; the sort is reset
      and the page number set, its size and count kept. */
  function Fetch(state: RespondentsState, surveyId: JsValue, page: int): (r: RespondentsState)
    ensures r.items == (if LooseEquals(state.surveyId, surveyId) then state.items else None)
    ensures r.fetching && r.surveyId == surveyId && r.sortBy.None? && r.sortAsc
    ensures r.page == state.page.(number := page) && r.byId == state.byId
  {
    var items := if LooseEquals(state.surveyId, surveyId) then state.items else None;
    state.(items := items, fetching := true, surveyId := surveyId, sortBy := None, sortAsc := true,
           page := state.page.(number := page))
  }

  /** `createOrUpdateRespondent`: a copy of the respondent under its id, beside the other fields. */
  function Put(state: RespondentsState, id: int, respondent: Respondent): (r: RespondentsState)
    ensures r.byId == state.byId[id := respondent]
    ensures r.(byId := state.byId) == state
  {
    state.(byId := state.byId[id := respondent])
  }

  /** `receiveRespondents`: taken only for the survey and the page last asked for. */
  function Receive(state: RespondentsState, surveyId: JsValue, page: int, respondents: map<int, Respondent>,
                   respondentsCount: int): (r: RespondentsState)
    ensures !LooseEquals(state.surveyId, surveyId) || state.page.number != page ==> r == state
    ensures LooseEquals(state.surveyId, surveyId) && state.page.number == page ==>
      && !r.fetching && r.items == Some(respondents)
      && r.page == Page(page, state.page.size, respondentsCount)
      && r.surveyId == state.surveyId && r.sortBy == state.sortBy && r.sortAsc == state.sortAsc && r.byId == state.byId
  {
    if !LooseEquals(state.surveyId, surveyId) || state.page.number != page then state
    else state.(fetching := false, items := Some(respondents),
                page := state.page.(number := page, totalCount := respondentsCount))
  }

  /** The reducer. */
  function Reduce(state: RespondentsState, action: Action): RespondentsState {
    match action
    case FetchRespondents(surveyId, page) => Fetch(state, surveyId, page)
    case CreateRespondent(id, respondent) => Put(state, id, respondent)
    case UpdateRespondent(id, respondent) => Put(state, id, respondent)
    case ReceiveRespondents(surveyId, page, respondents, count) => Receive(state, surveyId, page, respondents, count)
    case Other => state
  }

  /** The response to the page last asked for is stored with its count; the response to a page asked
      for before is dropped, and so is one for another survey. */
  lemma ReceiveOnlyRequestedPage(state: RespondentsState, surveyId: int, page: int, earlier: int,
                                 respondents: map<int, Respondent>, count: int)
    requires earlier != page
    ensures var s := Reduce(state, FetchRespondents(JNum(Int(surveyId)), page));
      && Reduce(s, ReceiveRespondents(JNum(Int(surveyId)), earlier, respondents, count)) == s
      && Reduce(s, ReceiveRespondents(JNum(Int(surveyId + 1)), page, respondents, count)) == s
      && Reduce(s, ReceiveRespondents(JNum(Int(surveyId)), page, respondents, count)).items == Some(respondents)
      && Reduce(s, ReceiveRespondents(JNum(Int(surveyId)), page, respondents, count)).page
           == Page(page, state.page.size, count)
  {
  }

  /** Paging through a survey keeps the respondents on display while the next page is fetched;
      another survey drops them. */
  lemma FetchKeepsItemsOfSameSurvey(state: RespondentsState, surveyId: int, page: int)
    requires state.surveyId == JNum(Int(surveyId))
    ensures Reduce(state, FetchRespondents(JNum(Int(surveyId)), page)).items == state.items
    ensures Reduce(state, FetchRespondents(JNum(Int(surveyId + 1)), page)).items.None?
  {
  }

  /** CREATE and UPDATE write the same entry; the items of the page are not touched. */
  lemma CreateAndUpdateAgree(state: RespondentsState, id: int, respondent: Respondent)
    ensures Reduce(state, CreateRespondent(id, respondent)) == Reduce(state, UpdateRespondent(id, respondent))
    ensures Reduce(state, CreateRespondent(id, respondent)).items == state.items
    ensures Reduce(state, CreateRespondent(id, respondent)).byId[id] == respondent
    ensures Reduce(state, Other) == state
  {
  }
}
