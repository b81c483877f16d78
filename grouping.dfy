/** `groupBy` of the chat windows: consecutive messages of the same type go into one group, shown
    as one bubble. */
module Grouping {

  /** A chat message: its type (who sent it) and its text. */
  datatype Message = Message(kind: string, body: string)

  /** The concatenation of the groups. */
  function Flatten(groups: seq<seq<Message>>): seq<Message> {
    if groups == [] then [] else Flatten(groups[..|groups| - 1]) + groups[|groups| - 1]
  }

  /** The callback of the `reduce`: a new group when there is none yet or the type of the last
      grouped message differs from the message's, otherwise the message joins the last group. */
  function Add(groups: seq<seq<Message>>, m: Message): (r: seq<seq<Message>>)
    requires groups == [] || |groups[|groups| - 1]| > 0
    ensures |r| > 0 && |r[|r| - 1]| > 0 && r[|r| - 1][|r[|r| - 1]| - 1] == m
    ensures |r| <= |groups| + 1
    ensures forall i :: 0 <= i < |r| - 1 ==> i < |groups| && r[i] == groups[i]
  {
    if |groups| == 0 then [[m]]
    else
      var lastGroup := groups[|groups| - 1];
      if lastGroup[|lastGroup| - 1].kind != m.kind then groups + [[m]]
      else groups[..|groups| - 1] + [lastGroup + [m]]
  }

  /** The `reduce` over the messages, from no groups. */
  function GroupBy(messages: seq<Message>): (groups: seq<seq<Message>>)
    ensures forall i :: 0 <= i < |groups| ==> |groups[i]| > 0
    ensures |groups| <= |messages|
    ensures messages != [] ==> |groups| > 0
  {
    if messages == [] then []
    else
      var groups := GroupBy(messages[..|messages| - 1]);
      Add(groups, messages[|messages| - 1])
  }

  /** Groups of one type each, with the types of neighbouring groups different. */
  predicate Runs(groups: seq<seq<Message>>) {
    && (forall i :: 0 <= i < |groups| ==> |groups[i]| > 0)
    && (forall i, j :: 0 <= i < |groups| && 0 <= j < |groups[i]| ==> groups[i][j].kind == groups[i][0].kind)
    && (forall i :: 0 < i < |groups| ==> groups[i][0].kind != groups[i - 1][0].kind)
  }

  /** One more message: the groups give back the messages with it at the end. */
  lemma AddFlatten(groups: seq<seq<Message>>, m: Message)
    requires groups == [] || |groups[|groups| - 1]| > 0
    ensures Flatten(Add(groups, m)) == Flatten(groups) + [m]
  {
    var r := Add(groups, m);
    if groups == [] {
      assert Flatten(r) == Flatten(r[..0]) + [m];
    } else {
      var lastGroup := groups[|groups| - 1];
      var front := groups[..|groups| - 1];
      if lastGroup[|lastGroup| - 1].kind != m.kind {
        assert r[..|r| - 1] == groups;
      } else {
        assert r[..|r| - 1] == front;
        assert Flatten(groups) == Flatten(front) + lastGroup;
      }
    }
  }

  /** The groups give back the messages, in order. */
  lemma {:induction false} GroupByFlatten(messages: seq<Message>)
    ensures Flatten(GroupBy(messages)) == messages
  {
    if messages != [] {
      var init, m := messages[..|messages| - 1], messages[|messages| - 1];
      var g := GroupBy(init);
      GroupByFlatten(init);
      AddFlatten(g, m);
      SnocOfLast(messages);
    }
  }

  /** A list that is not empty is its messages before the last, then the last. */
  lemma SnocOfLast(messages: seq<Message>)
    requires messages != []
    ensures messages == messages[..|messages| - 1] + [messages[|messages| - 1]]
  {
  }

  /** The prefix one longer: the shorter prefix, then the next message. */
  lemma PrefixStep(messages: seq<Message>, i: nat)
    requires i < |messages|
    ensures messages[..i + 1][..i] == messages[..i] && messages[..i + 1][i] == messages[i]
  {
  }

  /** Each group is of one type, and neighbouring groups are of different types. */
  lemma {:induction false} GroupByRuns(messages: seq<Message>)
    ensures Runs(GroupBy(messages))
  {
    if messages != [] {
      var init := messages[..|messages| - 1];
      GroupByRuns(init);
      AddKeepsRuns(GroupBy(init), messages[|messages| - 1]);
    }
  }

  /** Adding a message keeps the groups runs. */
  lemma AddKeepsRuns(groups: seq<seq<Message>>, m: Message)
    requires Runs(groups)
    ensures Runs(Add(groups, m))
  {
    if groups != [] {
      var lastGroup := groups[|groups| - 1];
      if lastGroup[|lastGroup| - 1].kind != m.kind {
        RunsNewGroup(groups, m);
      } else {
        RunsJoin(groups, m);
      }
    }
  }

  /** A message of another type than the last one starts a run of its own. */
  lemma RunsNewGroup(groups: seq<seq<Message>>, m: Message)
    requires Runs(groups) && groups != []
    requires groups[|groups| - 1][|groups[|groups| - 1]| - 1].kind != m.kind
    ensures Runs(groups + [[m]])
  {
    var lastGroup := groups[|groups| - 1];
    var r := groups + [[m]];
    assert lastGroup[|lastGroup| - 1].kind == lastGroup[0].kind;
    assert r[|r| - 1][0] == m && r[|r| - 2] == lastGroup;
    forall i | 0 <= i < |groups|
      ensures r[i] == groups[i]
    {
    }
  }

  /** A message of the last one's type extends the last run. */
  lemma RunsJoin(groups: seq<seq<Message>>, m: Message)
    requires Runs(groups) && groups != []
    requires groups[|groups| - 1][|groups[|groups| - 1]| - 1].kind == m.kind
    ensures Runs(groups[..|groups| - 1] + [groups[|groups| - 1] + [m]])
  {
    var lastGroup := groups[|groups| - 1];
    var front := groups[..|groups| - 1];
    var r: seq<seq<Message>> := front + [lastGroup + [m]];
    assert lastGroup[|lastGroup| - 1].kind == lastGroup[0].kind;
    forall i, j | 0 <= i < |r| && 0 <= j < |r[i]|
      ensures r[i][j].kind == r[i][0].kind
    {
      if i < |front| {
        assert r[i] == groups[i];
      } else if j < |lastGroup| {
        assert r[i][j] == lastGroup[j];
      }
    }
    forall i | 0 < i < |r|
      ensures r[i][0].kind != r[i - 1][0].kind
    {
      assert r[i][0] == groups[i][0] && r[i - 1][0] == groups[i - 1][0];
    }
  }

  /** The groups without their last message. */
  function DropLastMessage(groups: seq<seq<Message>>): seq<seq<Message>>
    requires groups != [] && |groups[|groups| - 1]| > 0
  {
    var lastGroup := groups[|groups| - 1];
    if |lastGroup| == 1 then groups[..|groups| - 1]
    else groups[..|groups| - 1] + [lastGroup[..|lastGroup| - 1]]
  }

  /** A last group of one message: dropping it leaves runs whose last message is of another type. */
  lemma DropSingleton(groups: seq<seq<Message>>)
    requires Runs(groups) && groups != [] && |groups[|groups| - 1]| == 1
    ensures var front := DropLastMessage(groups);
      && front == groups[..|groups| - 1]
      && Runs(front)
      && Flatten(groups) == Flatten(front) + [groups[|groups| - 1][0]]
      && (front != [] ==> front[|front| - 1][|front[|front| - 1]| - 1].kind != groups[|groups| - 1][0].kind)
  {
    var front := groups[..|groups| - 1];
    var lastGroup := groups[|groups| - 1];
    assert lastGroup == [lastGroup[0]];
    if front != [] {
      var g := front[|front| - 1];
      assert g == groups[|groups| - 2];
      assert g[|g| - 1].kind == g[0].kind;
    }
  }

  /** A last group of several messages: dropping the last leaves runs ending with a message of its
      type. */
  lemma DropFromLongerGroup(groups: seq<seq<Message>>)
    requires Runs(groups) && groups != [] && |groups[|groups| - 1]| > 1
    ensures var lastGroup := groups[|groups| - 1];
      var fewer := DropLastMessage(groups);
      && fewer == groups[..|groups| - 1] + [lastGroup[..|lastGroup| - 1]]
      && Runs(fewer)
      && Flatten(groups) == Flatten(fewer) + [lastGroup[|lastGroup| - 1]]
      && lastGroup[|lastGroup| - 2].kind == lastGroup[|lastGroup| - 1].kind
  {
    var front := groups[..|groups| - 1];
    var lastGroup := groups[|groups| - 1];
    assert lastGroup[|lastGroup| - 2].kind == lastGroup[0].kind;
    var shorter := lastGroup[..|lastGroup| - 1];
    var fewer: seq<seq<Message>> := front + [shorter];
    assert Flatten(groups) == Flatten(front) + lastGroup;
    assert fewer[..|fewer| - 1] == front;
    assert Flatten(fewer) == Flatten(front) + shorter;
    assert lastGroup == shorter + [lastGroup[|lastGroup| - 1]];
    forall i, j | 0 <= i < |fewer| && 0 <= j < |fewer[i]|
      ensures fewer[i][j].kind == fewer[i][0].kind
    {
      if i < |front| { assert fewer[i] == groups[i]; }
    }
    forall i | 0 < i < |fewer|
      ensures fewer[i][0].kind != fewer[i - 1][0].kind
    {
      assert fewer[i][0] == groups[i][0] && fewer[i - 1][0] == groups[i - 1][0];
    }
  }

  /** Appending one message to the list adds it to the groups of the rest. */
  lemma GroupBySnoc(init: seq<Message>, m: Message)
    ensures GroupBy(init + [m]) == Add(GroupBy(init), m)
  {
    var s := init + [m];
    assert s[..|s| - 1] == init && s[|s| - 1] == m;
  }

  /** A message of another type than the last starts a group of its own. */
  lemma StartsGroup(init: seq<Message>, m: Message)
    requires var g := GroupBy(init); g != [] ==> g[|g| - 1][|g[|g| - 1]| - 1].kind != m.kind
    ensures GroupBy(init + [m]) == GroupBy(init) + [[m]]
  {
    GroupBySnoc(init, m);
  }

  /** A message of the type of the last joins its group. */
  lemma JoinsGroup(init: seq<Message>, m: Message)
    requires var g := GroupBy(init); g != [] && g[|g| - 1][|g[|g| - 1]| - 1].kind == m.kind
    ensures var g := GroupBy(init); GroupBy(init + [m]) == g[..|g| - 1] + [g[|g| - 1] + [m]]
  {
    GroupBySnoc(init, m);
  }

  /** Runs ending with a message of the type of the next message: the message joins the last run. */
  lemma JoinsRun(front: seq<seq<Message>>, shorter: seq<Message>, m: Message, groups: seq<seq<Message>>)
    requires shorter != [] && shorter[|shorter| - 1].kind == m.kind
    requires GroupBy(Flatten(front + [shorter])) == front + [shorter]
    requires groups == front + [shorter + [m]]
    ensures GroupBy(Flatten(groups)) == groups
  {
    var fewer := front + [shorter];
    assert fewer[..|fewer| - 1] == front && groups[..|groups| - 1] == front;
    assert Flatten(groups) == Flatten(fewer) + [m];
    JoinsGroup(Flatten(fewer), m);
  }

  /** The step of `RunsAreUnique` when the last group has several messages. */
  lemma LongerCase(groups: seq<seq<Message>>)
    requires groups != [] && |groups[|groups| - 1]| > 1
    requires var lastGroup := groups[|groups| - 1]; lastGroup[|lastGroup| - 2].kind == lastGroup[|lastGroup| - 1].kind
    requires GroupBy(Flatten(DropLastMessage(groups))) == DropLastMessage(groups)
    ensures GroupBy(Flatten(groups)) == groups
  {
    var lastGroup := groups[|groups| - 1];
    var m := lastGroup[|lastGroup| - 1];
    var front, shorter := groups[..|groups| - 1], lastGroup[..|lastGroup| - 1];
    SplitLastGroup(groups);
    JoinsRun(front, shorter, m, groups);
  }

  /** The groups are the groups without their last message, with that message put back. */
  lemma SplitLastGroup(groups: seq<seq<Message>>)
    requires groups != [] && |groups[|groups| - 1]| > 1
    ensures var lastGroup := groups[|groups| - 1];
      var front, shorter := groups[..|groups| - 1], lastGroup[..|lastGroup| - 1];
      && DropLastMessage(groups) == front + [shorter]
      && groups == front + [shorter + [lastGroup[|lastGroup| - 1]]]
      && shorter[|shorter| - 1] == lastGroup[|lastGroup| - 2]
  {
    var lastGroup := groups[|groups| - 1];
    assert lastGroup == lastGroup[..|lastGroup| - 1] + [lastGroup[|lastGroup| - 1]];
    assert groups == groups[..|groups| - 1] + [lastGroup];
  }

  /** The step of `RunsAreUnique` when the last group is one message of another type than the
      message before it. */
  lemma SingletonCase(groups: seq<seq<Message>>)
    requires groups != [] && |groups[|groups| - 1]| == 1
    requires var front := groups[..|groups| - 1];
      front != [] ==> |front[|front| - 1]| > 0 && front[|front| - 1][|front[|front| - 1]| - 1].kind != groups[|groups| - 1][0].kind
    requires GroupBy(Flatten(groups[..|groups| - 1])) == groups[..|groups| - 1]
    ensures GroupBy(Flatten(groups)) == groups
  {
    var front := groups[..|groups| - 1];
    var m := groups[|groups| - 1][0];
    SplitLastMessage(groups);
    StartsGroup(Flatten(front), m);
  }

  /** Groups ending with a group of one message: the groups before it, then that message alone. */
  lemma SplitLastMessage(groups: seq<seq<Message>>)
    requires groups != [] && |groups[|groups| - 1]| == 1
    ensures groups == groups[..|groups| - 1] + [[groups[|groups| - 1][0]]]
    ensures Flatten(groups) == Flatten(groups[..|groups| - 1]) + [groups[|groups| - 1][0]]
  {
    assert groups[|groups| - 1] == [groups[|groups| - 1][0]];
  }

  /** There is only one way to cut messages into such runs: any groups that concatenate to the
      messages, each of one type, neighbours of different types, are the groups `groupBy` builds. */
  lemma {:induction false} RunsAreUnique(groups: seq<seq<Message>>)
    requires Runs(groups)
    ensures GroupBy(Flatten(groups)) == groups
    decreases |Flatten(groups)|
  {
    if groups != [] {
      var lastGroup := groups[|groups| - 1];
      var m := lastGroup[|lastGroup| - 1];
      var fewer := DropLastMessage(groups);
      if |lastGroup| == 1 {
        DropSingleton(groups);
        RunsAreUnique(fewer);
        SingletonCase(groups);
      } else {
        DropFromLongerGroup(groups);
        RunsAreUnique(fewer);
        LongerCase(groups);
      }
    }
  }

  /** The loop of the `reduce`: `groups.push([message])` or `lastGroup.push(message)`. */
  method GroupByLoop(messages: seq<Message>) returns (groups: seq<seq<Message>>)
    ensures groups == GroupBy(messages)
  {
    groups := [];
    for i := 0 to |messages|
      invariant groups == GroupBy(messages[..i])
    {
      var m := messages[i];
      PrefixStep(messages, i);
      if |groups| == 0 {
        groups := [[m]];
      } else {
        var lastGroup := groups[|groups| - 1];
        if lastGroup[|lastGroup| - 1].kind != m.kind {
          groups := groups + [[m]];
        } else {
          groups := groups[..|groups| - 1] + [lastGroup + [m]];
        }
      }
    }
    assert messages[..|messages|] == messages;
  }

  /** The messages grouped into bubbles, as `render` groups them: cut into runs of one type each,
      in order, and in no other way. */
  method GroupMessages(messages: seq<Message>) returns (groups: seq<seq<Message>>)
    ensures Flatten(groups) == messages && Runs(groups)
    ensures messages == [] ==> groups == []
    ensures forall other :: Flatten(other) == messages && Runs(other) ==> other == groups
  {
    groups := GroupByLoop(messages);
    GroupByFlatten(messages);
    GroupByRuns(messages);
    forall other | Flatten(other) == messages && Runs(other)
      ensures other == groups
    {
      RunsAreUnique(other);
    }
  }
}
