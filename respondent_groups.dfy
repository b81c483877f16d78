/** The respondent-groups store of a survey: the groups keyed by id, the survey they belong to,
    and the invalid entries of the last rejected upload. */
module RespondentGroups {
  import opened Js

  /** A respondent group as the server sends it; `channels` may be missing. */
  datatype Group = Group(id: int, name: string, sample: seq<string>, channels: Option<seq<int>>)

  /** An entry of `items`: a group, or the object holding only `channels` that SELECT_CHANNELS
      creates for an id with no group. */
  datatype Item = Full(group: Group) | ChannelsOnly(channels: seq<int>)

  /** One rejected line of an upload. */
  datatype InvalidEntry = InvalidEntry(lineNumber: int, phoneNumber: string)

  /** The rejection of an uploaded file. */
  datatype Invalids = Invalids(filename: string, invalidEntries: seq<InvalidEntry>)

  datatype GroupsState = GroupsState(fetching: bool, items: Option<map<int, Item>>, surveyId: JsValue,
                                     invalidRespondents: Option<Invalids>)

  datatype Action =
    | FetchGroups(surveyId: JsValue)
    | ReceiveGroups(surveyId: JsValue, groups: map<int, Group>)
    | ReceiveGroup(group: Group)
    | RemoveGroup(id: int)
    | InvalidRespondents(invalids: Option<Invalids>)
    | ClearInvalids
    | SelectChannels(groupId: int, channels: seq<int>)
    | Other

  /** `initialState` */
  function Initial(): (s: GroupsState)
    ensures !s.fetching && s.items.None? && s.surveyId == JNull && s.invalidRespondents.None?
  {
    GroupsState(false, None, JNull, None)
  }

  /** `{...items}`: a null `items` spreads as the empty object. */
  function Spread(items: Option<map<int, Item>>): (m: map<int, Item>)
    ensures items.Some? ==> m == items.value
    ensures items.None? ==> m == map[]
  {
    if items.Some? then items.value else map[]
  }

  /** The groups of a response, each a full entry under its key. */
  function AsItems(groups: map<int, Group>): (m: map<int, Item>)
    ensures m.Keys == groups.Keys
    ensures forall k :: k in m ==> m[k] == Full(groups[k])
  {
    map k | k in groups :: Full(groups[k])
  }

  /** `fetchRespondentGroups`: the items survive only a request for the same survey. */
  function Fetch(state: GroupsState, surveyId: JsValue): (r: GroupsState)
    ensures r.fetching && r.surveyId == surveyId && r.invalidRespondents.None?
    ensures r.items == (if LooseEquals(state.surveyId, surveyId) then state.items else None)
  {
    var items := if LooseEquals(state.surveyId, surveyId) then state.items else None;
    state.(items := items, fetching := true, surveyId := surveyId, invalidRespondents := None)
  }

  /** `receiveRespondentGroups`: a response for another survey is ignored. */
  function ReceiveAll(state: GroupsState, surveyId: JsValue, groups: map<int, Group>): (r: GroupsState)
    ensures !LooseEquals(state.surveyId, surveyId) ==> r == state
    ensures LooseEquals(state.surveyId, surveyId) ==>
      r == GroupsState(false, Some(AsItems(groups)), state.surveyId, None)
  {
    if !LooseEquals(state.surveyId, surveyId) then state
    else state.(fetching := false, items := Some(AsItems(groups)), invalidRespondents := None)
  }

  /** `receiveRespondentGroup`: the group under its id, every other entry kept. */
  function ReceiveOne(state: GroupsState, group: Group): (r: GroupsState)
    ensures !r.fetching && r.surveyId == state.surveyId && r.invalidRespondents == state.invalidRespondents
    ensures r.items == Some(Spread(state.items)[group.id := Full(group)])
  {
    state.(fetching := false, items := Some(Spread(state.items)[group.id := Full(group)]))
  }

  /** `removeRespondentGroup`: deletes from a copy of the items, so the old items are intact. */
  function Remove(state: GroupsState, id: int): (r: GroupsState)
    ensures !r.fetching && r.surveyId == state.surveyId && r.invalidRespondents == state.invalidRespondents
    ensures r.items == Some(Spread(state.items) - {id})
  {
    state.(fetching := false, items := Some(Spread(state.items) - {id}))
  }

  /** The entry SELECT_CHANNELS writes: the old entry with new channels, or channels alone. */
  function WithChannels(item: Option<Item>, channels: seq<int>): (r: Item)
    ensures item.Some? && item.value.Full? ==> r == Full(item.value.group.(channels := Some(channels)))
    ensures item.None? || item.value.ChannelsOnly? ==> r == ChannelsOnly(channels)
  {
    match item
    case Some(Full(g)) => Full(g.(channels := Some(channels)))
    case _ => ChannelsOnly(channels)
  }

  /** `selectChannels`: `state.items[groupId]` on null items is a TypeError. */
  function Select(state: GroupsState, groupId: int, channels: seq<int>): (r: Outcome<GroupsState>)
    ensures r.Done? <==> state.items.Some?
    ensures r.Done? ==> r.value == state.(items := Some(state.items.value[groupId :=
      WithChannels(if groupId in state.items.value then Some(state.items.value[groupId]) else None, channels)]))
  {
    match state.items
    case None => Thrown("TypeError: Cannot read property of null")
    case Some(items) =>
      var previous := if groupId in items then Some(items[groupId]) else None;
      Done(state.(items := Some(items[groupId := WithChannels(previous, channels)])))
  }

  /** The reducer. */
  function Reduce(state: GroupsState, action: Action): Outcome<GroupsState> {
    match action
    case FetchGroups(surveyId) => Done(Fetch(state, surveyId))
    case ReceiveGroups(surveyId, groups) => Done(ReceiveAll(state, surveyId, groups))
    case ReceiveGroup(group) => Done(ReceiveOne(state, group))
    case RemoveGroup(id) => Done(Remove(state, id))
    case InvalidRespondents(invalids) => Done(state.(invalidRespondents := invalids))
    case ClearInvalids => Done(state.(invalidRespondents := None))
    case SelectChannels(groupId, channels) => Select(state, groupId, channels)
    case Other => Done(state)
  }

  /** FETCH keeps the items exactly when the survey is the same, and clears the invalid entries. */
  lemma FetchKeepsItemsOfSameSurvey(state: GroupsState, surveyId: int)
    requires state.items.Some?
    ensures var r := Reduce(state, FetchGroups(JNum(Int(surveyId)))).value;
      && (r.items == state.items <==> (state.surveyId.JNum? && state.surveyId.num == Int(surveyId))
                                       || (state.surveyId.JStr? && ToNumber(state.surveyId.s) == Int(surveyId)))
      && r.fetching && r.invalidRespondents.None?
  {
  }

  /** A response for the survey of the last request is taken; for any other it is dropped. */
  lemma ReceiveOnlyForRequestedSurvey(state: GroupsState, requested: int, other: int, groups: map<int, Group>)
    requires requested != other
    ensures var s := Fetch(state, JNum(Int(requested)));
      && Reduce(s, ReceiveGroups(JNum(Int(other)), groups)) == Done(s)
      && Reduce(s, ReceiveGroups(JNum(Int(requested)), groups)).value.items == Some(AsItems(groups))
      && !Reduce(s, ReceiveGroups(JNum(Int(requested)), groups)).value.fetching
  {
  }

  /** RECEIVE_RESPONDENT_GROUP sets the entry of the group and no other. */
  lemma ReceiveOneTouchesOneKey(state: GroupsState, group: Group)
    ensures var items := Reduce(state, ReceiveGroup(group)).value.items.value;
      && items.Keys == Spread(state.items).Keys + {group.id}
      && items[group.id] == Full(group)
      && forall k :: k in items && k != group.id ==> items[k] == state.items.value[k]
  {
  }

  /** REMOVE_RESPONDENT_GROUP deletes the one key; every other entry is kept. */
  lemma RemoveTouchesOneKey(state: GroupsState, id: int)
    ensures var items := Reduce(state, RemoveGroup(id)).value.items.value;
      && items.Keys == Spread(state.items).Keys - {id}
      && forall k :: k in items ==> items[k] == state.items.value[k]
  {
  }

  /** Removing a group just received for a new id gives the items back. */
  lemma RemoveUndoesReceive(state: GroupsState, group: Group)
    requires state.items.Some? && group.id !in state.items.value
    ensures Reduce(Reduce(state, ReceiveGroup(group)).value, RemoveGroup(group.id)).value.items == state.items
  {
    assert state.items.value[group.id := Full(group)] - {group.id} == state.items.value;
  }

  /** SELECT_CHANNELS changes only the channels of the one entry; selecting again the same channels
      changes nothing more. */
  lemma SelectChangesOnlyChannels(state: GroupsState, groupId: int, channels: seq<int>)
    requires state.items.Some?
    ensures var r := Reduce(state, SelectChannels(groupId, channels));
      && r.Done?
      && r.value.fetching == state.fetching && r.value.surveyId == state.surveyId
      && r.value.invalidRespondents == state.invalidRespondents
      && r.value.items.value.Keys == state.items.value.Keys + {groupId}
      && (forall k :: k in state.items.value && k != groupId ==> r.value.items.value[k] == state.items.value[k])
      && (groupId in state.items.value && state.items.value[groupId].Full? ==>
            r.value.items.value[groupId].Full?
            && r.value.items.value[groupId].group == state.items.value[groupId].group.(channels := Some(channels)))
      && Reduce(r.value, SelectChannels(groupId, channels)) == r
  {
    var items := state.items.value;
    var entry := WithChannels(if groupId in items then Some(items[groupId]) else None, channels);
    assert WithChannels(Some(entry), channels) == entry;
    assert items[groupId := entry][groupId := entry] == items[groupId := entry];
  }

  /** INVALID_RESPONDENTS and CLEAR_INVALIDS touch only the invalid entries; an unknown action
      returns the state itself. */
  lemma InvalidsOnly(state: GroupsState, invalids: Option<Invalids>)
    ensures Reduce(state, InvalidRespondents(invalids)) == Done(state.(invalidRespondents := invalids))
    ensures Reduce(state, ClearInvalids).value.invalidRespondents.None?
    ensures Reduce(state, ClearInvalids).value.(invalidRespondents := state.invalidRespondents) == state
    ensures Reduce(state, Other) == Done(state)
  {
  }
}
