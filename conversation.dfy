/**
 * The conversation (`ChatLayout` in src/components/chat/chat-layout.tsx):
 * the list of messages, starting with the assistant's greeting, and the
 * `isSending` flag. Sending is split at its `await`: `Begin` appends the
 * user's message and a typing placeholder, `Complete` puts the reply (or an
 * error text) into the placeholder and clears the flag. Message ids come
 * from the clock, which is a parameter here.
 */
module Conversation {
  import opened Wrappers
  import opened Types
  import opened Strings
  import Render

  /** The component's state. */
  datatype Layout = Layout(messages: seq<Message>, isSending: bool)

  const GreetingText: string :=
    "Hello! I am CodeAssist. I can help you generate, summarize, and refactor code. \n\nTo get started, try one of these: \n- Ask me to create a new component. \n- Attach a file with `@` and ask me to summarize it. \n- Attach a file and ask me to refactor it (e.g., \"@src/app/page.tsx refactor to use a button\")."

  const Greeting: Message := Message("1", Assistant, GreetingText, None)

  /** The content of the placeholder that stands for the reply while it is awaited. */
  const Typing: string := "..."

  /** What the placeholder shows when the reply could not be fetched. */
  const ErrorText: string := "An error occurred while fetching the response."

  const Initial: Layout := Layout([Greeting], false)

  /** The user's message, with the id `String(Date.now())`. */
  function UserMessage(content: string, attachments: seq<FileAttachment>, now: nat): (m: Message)
    ensures m.id == DecimalString(now) && m.role == User && m.attachments == Some(attachments)
    ensures Render.MessageBody(m) == Render.Rendered(Render.RenderContent(content))
  {
    Message(DecimalString(now), User, content, Some(attachments))
  }

  /** The typing placeholder, with the id `String(Date.now() + 1)`. */
  function Placeholder(now: nat): (m: Message)
    ensures m.id == DecimalString(now + 1) && m.role == Assistant
    ensures Render.MessageBody(m) == Render.TypingIndicator
  {
    Message(DecimalString(now + 1), Assistant, Typing, None)
  }

  /**
   * The first half of `handleSendMessage`: while a message is in flight
   * nothing happens; otherwise the flag is set and the user's message and
   * the placeholder are appended. `userNow` and `typingNow` are what the two
   * reads of the clock gave.
   */
  function Begin(l: Layout, content: string, attachments: seq<FileAttachment>, userNow: nat, typingNow: nat): (r: Layout)
    ensures l.isSending ==> r == l
    ensures !l.isSending ==>
      && r.isSending
      && |r.messages| == |l.messages| + 2
      && r.messages[..|l.messages|] == l.messages
      && r.messages[|l.messages|] == UserMessage(content, attachments, userNow)
      && r.messages[|l.messages| + 1] == Placeholder(typingNow)
  {
    if l.isSending then l
    else Layout(l.messages + [UserMessage(content, attachments, userNow)] + [Placeholder(typingNow)], true)
  }

  /** `msgs.map(msg => msg.id === id ? {...msg, content} : msg)`. */
  function ReplaceContent(ms: seq<Message>, id: string, content: string): (r: seq<Message>)
    ensures |r| == |ms|
    ensures forall i :: 0 <= i < |ms| ==>
      r[i] == if ms[i].id == id then ms[i].(content := content) else ms[i]
    decreases |ms|
  {
    if |ms| == 0 then []
    else
      var head := if ms[0].id == id then ms[0].(content := content) else ms[0];
      [head] + ReplaceContent(ms[1..], id, content)
  }

  /** What the placeholder ends up saying: the reply, or the error text when fetching it failed. */
  function ReplyText(outcome: Result<string>): string {
    match outcome
    case Ok(reply) => reply
    case Err(_) => ErrorText
  }

  /** The second half of `handleSendMessage`: the placeholder's content replaced, and in any case the flag cleared. */
  function Complete(l: Layout, placeholderId: string, outcome: Result<string>): (r: Layout)
    ensures !r.isSending
    ensures r.messages == ReplaceContent(l.messages, placeholderId, ReplyText(outcome))
  {
    Layout(ReplaceContent(l.messages, placeholderId, ReplyText(outcome)), false)
  }

  /** Replacing content changes contents only: the ids, roles and attachments stay, in order. */
  lemma ReplaceKeepsShape(ms: seq<Message>, id: string, content: string)
    ensures var r := ReplaceContent(ms, id, content);
      forall i :: 0 <= i < |ms| ==>
        && r[i].id == ms[i].id && r[i].role == ms[i].role && r[i].attachments == ms[i].attachments
        && (r[i].content != ms[i].content ==> ms[i].id == id)
  {
  }

  /** When only the message at `k` has the id, only that message changes. */
  lemma ReplaceUniqueId(ms: seq<Message>, k: nat, content: string)
    requires k < |ms|
    requires forall i :: 0 <= i < |ms| && i != k ==> ms[i].id != ms[k].id
    ensures ReplaceContent(ms, ms[k].id, content) == ms[k := ms[k].(content := content)]
  {
    var r := ReplaceContent(ms, ms[k].id, content);
    assert forall i :: 0 <= i < |ms| ==> r[i] == ms[k := ms[k].(content := content)][i];
  }

  /** A send while another is in flight changes nothing. */
  lemma BeginWhileSendingIgnored(l: Layout, content: string, attachments: seq<FileAttachment>, userNow: nat, typingNow: nat)
    requires l.isSending
    ensures Begin(l, content, attachments, userNow, typingNow) == l
  {
  }

  /** Until the reply arrives, the placeholder shows the typing indicator and the user's message shows its text. */
  lemma PlaceholderShowsTyping(content: string, attachments: seq<FileAttachment>, userNow: nat, typingNow: nat)
    ensures Render.MessageBody(Placeholder(typingNow)) == Render.TypingIndicator
    ensures Render.MessageBody(UserMessage(content, attachments, userNow)) == Render.Rendered(Render.RenderContent(content))
  {
  }

  /** Even when both reads of the clock give the same time, the user's message and the placeholder get different ids. */
  lemma SameInstantIdsDiffer(content: string, attachments: seq<FileAttachment>, now: nat)
    ensures UserMessage(content, attachments, now).id != Placeholder(now).id
  {
    DecimalStringInjective(now, now + 1);
  }

  /**
   * One whole exchange from the initial state: when the clock gives the
   * placeholder an id that neither the greeting nor the user's message has,
   * the conversation is the greeting, the user's message and the reply (or
   * the error text), and no message is in flight.
   */
  lemma FirstExchange(content: string, attachments: seq<FileAttachment>, userNow: nat, typingNow: nat, outcome: Result<string>)
    requires typingNow + 1 != 1 && typingNow + 1 != userNow
    ensures var id := Placeholder(typingNow).id;
      Complete(Begin(Initial, content, attachments, userNow, typingNow), id, outcome)
        == Layout([Greeting, UserMessage(content, attachments, userNow), Message(id, Assistant, ReplyText(outcome), None)], false)
  {
    var id := DecimalString(typingNow + 1);
    assert DecimalString(1) == "1";
    DecimalStringInjective(typingNow + 1, 1);
    DecimalStringInjective(typingNow + 1, userNow);
    var ms := Begin(Initial, content, attachments, userNow, typingNow).messages;
    assert ms == [Greeting, UserMessage(content, attachments, userNow), Placeholder(typingNow)];
    ReplaceUniqueId(ms, 2, ReplyText(outcome));
  }

  /** The chat's state and the two halves of sending. */
  class ChatLayout {
    var messages: seq<Message>
    var isSending: bool

    function Snapshot(): Layout
      reads this
    {
      Layout(messages, isSending)
    }

    constructor ()
      ensures Snapshot() == Initial
    {
      messages := [Greeting];
      isSending := false;
    }

    /** Returns the placeholder's id, which `CompleteSend` is given once the reply is in; nothing when a send is in flight. */
    method BeginSend(content: string, attachments: seq<FileAttachment>, userNow: nat, typingNow: nat) returns (placeholderId: Option<string>)
      modifies this
      ensures Snapshot() == Begin(old(Snapshot()), content, attachments, userNow, typingNow)
      ensures placeholderId == if old(isSending) then None else Some(Placeholder(typingNow).id)
    {
      if isSending {
        return None;
      }
      isSending := true;
      messages := messages + [UserMessage(content, attachments, userNow)];
      var typing := Placeholder(typingNow);
      messages := messages + [typing];
      placeholderId := Some(typing.id);
    }

    method CompleteSend(placeholderId: string, outcome: Result<string>)
      modifies this
      ensures Snapshot() == Complete(old(Snapshot()), placeholderId, outcome)
    {
      messages := ReplaceContent(messages, placeholderId, ReplyText(outcome));
      isSending := false;
    }
  }
}
