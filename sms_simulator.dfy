/** The SMS simulator: a conversation seeded with sample messages, where every message the user
    sends is answered by the bot asking why. */
module SmsSimulator {
  import opened Js
  import opened Grouping

  /** `message(text, type)`: a message body with its type, `sent` for the user and `received` for
      the bot. */
  function Msg(text: string, kind: string): (m: Message)
    ensures m.body == text && m.kind == kind
  {
    Message(kind, text)
  }

  /** The sample conversation the simulator starts with. */
  function TestMessages(): (r: seq<Message>)
    ensures |r| == 6 && r[5] == Msg("25", "sent")
  {
    [ Msg("please complete this survey", "received"),
      Msg("please be honest", "received"),
      Msg("whats your gender?", "received"),
      Msg("female", "sent"),
      Msg("whats your age?", "received"),
      Msg("25", "sent") ]
  }

  /** `lastMessage`: `slice(-1)[0]` of a non-empty conversation, null for an empty one. */
  function Last(messages: seq<Message>): (r: Option<Message>)
    ensures r.None? <==> messages == []
    ensures r.Some? ==> r.value == messages[|messages| - 1]
  {
    if |messages| != 0 then Some(messages[|messages| - 1..][0]) else None
  }

  /** The bot's answer to a message. */
  function Reply(m: Message): Message {
    Msg("why you are asking: " + m.body + "?", "received")
  }

  /** The conversation after `componentDidUpdate`: an answer is appended when the last message is
      the user's. */
  function AfterUpdate(messages: seq<Message>): seq<Message> {
    var last := Last(messages);
    if last.Some? && last.value.kind == "sent" then messages + [Reply(last.value)] else messages
  }

  /** After an update the last message is never the user's, so a second update changes nothing: the
      bot answers exactly once. */
  lemma AfterUpdateSettles(messages: seq<Message>)
    ensures Last(AfterUpdate(messages)).None? || Last(AfterUpdate(messages)).value.kind != "sent"
    ensures AfterUpdate(AfterUpdate(messages)) == AfterUpdate(messages)
  {
  }

  /** A message the user sends is followed by exactly one answer quoting it; a message of the bot
      gets none. */
  lemma {:induction false} UserMessageAnsweredOnce(messages: seq<Message>, body: string)
    ensures AfterUpdate(messages + [Msg(body, "sent")]) ==
      messages + [Msg(body, "sent"), Msg("why you are asking: " + body + "?", "received")]
    ensures AfterUpdate(messages + [Msg(body, "received")]) == messages + [Msg(body, "received")]
  {
    assert messages + [Msg(body, "sent")] + [Reply(Msg(body, "sent"))] ==
      messages + [Msg(body, "sent"), Msg("why you are asking: " + body + "?", "received")];
  }

  /** The class of every message of a bubble, chosen by the type of its first message. */
  function BubbleClass(group: seq<Message>): string
    requires |group| > 0
  {
    if group[0].kind == "sent" then "message-sent" else "message-received"
  }

  /** In the bubbles `groupBy` builds from the conversation, a message is styled as sent exactly when
      the user sent it, and reading the bubbles in order gives back the conversation. */
  lemma BubblesShowConversation(messages: seq<Message>, i: int, j: int)
    requires 0 <= i < |GroupBy(messages)| && 0 <= j < |GroupBy(messages)[i]|
    ensures BubbleClass(GroupBy(messages)[i]) == "message-sent" <==> GroupBy(messages)[i][j].kind == "sent"
    ensures Flatten(GroupBy(messages)) == messages
  {
    GroupByRuns(messages);
    GroupByFlatten(messages);
  }

  /** The simulator's state: the conversation so far. */
  class Simulator {
    var messages: seq<Message>

    constructor ()
      ensures messages == TestMessages()
    {
      messages := TestMessages();
    }

    /** `addMessage`: one message at the end. */
    method AddMessage(msg: Message)
      modifies this
      ensures messages == old(messages) + [msg]
    {
      messages := messages + [msg];
    }

    /** `handleUserSentMessage`: the body stored as the user's. */
    method HandleUserSentMessage(body: string)
      modifies this
      ensures messages == old(messages) + [Msg(body, "sent")]
    {
      AddMessage(Msg(body, "sent"));
    }

    /** `handleBotSentMessage`: the body stored as the bot's. */
    method HandleBotSentMessage(body: string)
      modifies this
      ensures messages == old(messages) + [Msg(body, "received")]
    {
      AddMessage(Msg(body, "received"));
    }

    method LastMessage() returns (r: Option<Message>)
      ensures r == Last(messages)
    {
      if |messages| != 0 {
        r := Some(messages[|messages| - 1..][0]);
      } else {
        r := None;
      }
    }

    /** `componentDidUpdate`: the bot answers the user's last message. */
    method ComponentDidUpdate()
      modifies this
      ensures messages == AfterUpdate(old(messages))
      ensures Last(messages).None? || Last(messages).value.kind != "sent"
    {
      var lastMessage := LastMessage();
      if lastMessage.Some? && lastMessage.value.kind == "sent" {
        HandleBotSentMessage("why you are asking: " + lastMessage.value.body + "?");
      }
    }
  }

  /** The simulator's footer: the body typed so far. */
  class Footer {
    var messageBody: string

    constructor ()
      ensures messageBody == ""
    {
      messageBody := "";
    }

    /** `handleChange`: the input named `messageBody` sets the body; the state has no other field
        a shown message reads. */
    method HandleChange(name: string, value: string)
      modifies this
      ensures messageBody == if name == "messageBody" then value else old(messageBody)
    {
      if name == "messageBody" {
        messageBody := value;
      }
    }

    /** `sendMessage`: the body is sent whatever it holds, an empty one included, and the input is
        cleared. */
    method SendMessage() returns (sent: string)
      modifies this
      ensures sent == old(messageBody) && messageBody == ""
    {
      sent := messageBody;
      messageBody := "";
    }

    /** `sendMessageIfEnterPressed`: Enter sends the body, whatever it holds, and clears the input;
        any other key leaves both alone. */
    method KeyPress(key: string) returns (sent: Option<string>)
      modifies this
      ensures key == "Enter" ==> sent == Some(old(messageBody)) && messageBody == ""
      ensures key != "Enter" ==> sent.None? && messageBody == old(messageBody)
    {
      if key == "Enter" {
        var body := SendMessage();
        sent := Some(body);
      } else {
        sent := None;
      }
    }
  }
}
