/** The chat window of the questionnaire simulation: the messages shown in bubbles of one sender
    each, and the footer where the respondent types an answer. */
module ChatWindow {
  import opened Js
  import opened Grouping

  /** The class of every message of a bubble, chosen by the type of its first message. */
  function BubbleClass(group: seq<Message>): string
    requires |group| > 0
  {
    if group[0].kind == "at" then "at-message" else "ao-message"
  }

  /** In the bubbles `groupBy` builds, a message is styled as the respondent's exactly when it is the
      respondent's own. */
  lemma BubbleClassIsOwnType(messages: seq<Message>, i: int, j: int)
    requires 0 <= i < |GroupBy(messages)| && 0 <= j < |GroupBy(messages)[i]|
    ensures BubbleClass(GroupBy(messages)[i]) == "at-message" <==> GroupBy(messages)[i][j].kind == "at"
  {
    GroupByRuns(messages);
  }

  /** The footer: the text typed so far, and whether the window only shows a past conversation. */
  class ChatFooter {
    var chatInput: string
    const readOnly: bool

    /** `initialState`: nothing typed. */
    constructor (readOnly: bool)
      ensures chatInput == "" && this.readOnly == readOnly
    {
      chatInput := "";
      this.readOnly := readOnly;
    }

    /** The input's `onChange`. */
    method InputChange(value: string)
      modifies this
      ensures chatInput == value
    {
      chatInput := value;
    }

    /** `sendMessage`: a non-empty input is sent as the respondent's message (type `at`) and the
        input cleared; an empty input sends nothing. */
    method SendMessage() returns (sent: Option<Message>)
      modifies this
      ensures old(chatInput) != "" ==> sent == Some(Message("at", old(chatInput))) && chatInput == ""
      ensures old(chatInput) == "" ==> sent.None? && chatInput == old(chatInput)
    {
      if chatInput != "" {
        sent := Some(Message("at", chatInput));
        chatInput := "";
      } else {
        sent := None;
      }
    }

    /** A key pressed in the input: Enter sends, unless the window is read-only, where no handler
        is attached. */
    method KeyPress(key: string) returns (sent: Option<Message>)
      modifies this
      ensures readOnly || key != "Enter" ==> sent.None? && chatInput == old(chatInput)
      ensures !readOnly && key == "Enter" && old(chatInput) != "" ==>
        sent == Some(Message("at", old(chatInput))) && chatInput == ""
      ensures !readOnly && key == "Enter" && old(chatInput) == "" ==> sent.None? && chatInput == ""
    {
      if !readOnly && key == "Enter" {
        sent := SendMessage();
      } else {
        sent := None;
      }
    }
  }
}
