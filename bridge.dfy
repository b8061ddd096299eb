/**
 * The bridge to the editor host (src/lib/vscode.ts).
 *
 * Requests to the host wait in `requestCallbacks` under an id until a reply
 * carrying that id arrives; other inbound messages go to the listeners
 * registered for their command in `messageListeners`. Without a host the
 * requests answer at once from fixed mock data. The callbacks are code this
 * model cannot see: a call of one is recorded in `calls`, and what the
 * public adapters make of a reply is given by functions of the outcome.
 */
module Bridge {
  import opened Wrappers
  import opened Types
  import opened Base64

  /** The fields of a reply that the code reads: `error`, `content` and `files`, each possibly absent. */
  datatype Reply = Reply(error: Option<string>, content: Option<string>, files: Option<seq<WorkspaceFile>>)

  /** The data of an inbound `message` event: `requestId`, `command` and `data`, each possibly absent. */
  datatype Inbound = Inbound(requestId: Option<string>, command: Option<string>, data: Option<Reply>)

  /** How a request settles: resolved with the whole reply, or rejected with an error message. */
  datatype Outcome = Resolved(reply: Reply) | Rejected(message: string)

  /** A listener callback, by identity. */
  type Callback = nat

  /** A callback call: a pending request settling, or a listener receiving a message's data. */
  datatype Call = Settled(requestId: string, outcome: Outcome) | Notified(listener: Callback, data: Option<Reply>)

  /** A message posted to the host: the command and its data with the request id added. */
  datatype Post = Post(command: string, data: map<string, string>)

  /** What `request` gives back: an id that waits for the host's reply, or at once an outcome without a host. */
  datatype Requested = Pending(id: string) | Immediate(outcome: Outcome)

  /** The handle `listen` returns; passing it to `Unsubscribe` is calling the returned function. */
  datatype Subscription = Subscription(command: string, callback: Callback)

  /** The bridge's whole state. */
  datatype State = State(
    pending: map<string, string>,
    listeners: map<string, seq<Callback>>,
    posted: seq<Post>,
    calls: seq<Call>)

  /** JavaScript truthiness of an optional string: present and not empty. */
  predicate Truthy(s: Option<string>) {
    s.Some? && s.value != ""
  }

  /** A `Set` of callbacks kept in insertion order: no callback twice. */
  predicate NoRepeats(s: seq<Callback>) {
    forall i, j :: 0 <= i < j < |s| ==> s[i] != s[j]
  }

  /** What a pending callback does with a reply: reject with a present, non-empty `error`, else resolve with the reply. */
  function SettleReply(reply: Reply): (o: Outcome)
    ensures o.Rejected? <==> Truthy(reply.error)
    ensures o.Rejected? ==> o.message == reply.error.value
    ensures o.Resolved? ==> o.reply == reply
  {
    if Truthy(reply.error) then Rejected(reply.error.value) else Resolved(reply)
  }

  /** The message answers a request that is still pending. */
  predicate AnswersPending(st: State, msg: Inbound) {
    Truthy(msg.requestId) && msg.requestId.value in st.pending
  }

  /** One call per listener, in order, each receiving `data`. */
  function Notifications(listeners: seq<Callback>, data: Option<Reply>): (cs: seq<Call>)
    ensures |cs| == |listeners|
    ensures forall i :: 0 <= i < |listeners| ==> cs[i] == Notified(listeners[i], data)
  {
    seq(|listeners|, i requires 0 <= i < |listeners| => Notified(listeners[i], data))
  }

  /**
   * The inbound handler. A message not from the parent window is ignored. A
   * reply to a pending request settles it and removes it; when the reply has
   * no `data` the callback throws on reading `error`, before the entry is
   * removed, and nothing changes. Any other message with a command goes to
   * every listener of that command.
   */
  function Handle(st: State, fromParent: bool, msg: Inbound): (r: State)
    ensures r.listeners == st.listeners && r.posted == st.posted
    ensures r.pending.Keys <= st.pending.Keys && |st.pending.Keys - r.pending.Keys| <= 1
    ensures |st.calls| <= |r.calls| && r.calls[..|st.calls|] == st.calls
  {
    if !fromParent then st
    else if AnswersPending(st, msg) then
      match msg.data
      case None => st
      case Some(reply) =>
        var id := msg.requestId.value;
        assert st.pending.Keys - (st.pending - {id}).Keys == {id};
        st.(pending := st.pending - {id}, calls := st.calls + [Settled(id, SettleReply(reply))])
    else if Truthy(msg.command) && msg.command.value in st.listeners then
      st.(calls := st.calls + Notifications(st.listeners[msg.command.value], msg.data))
    else st
  }

  /** Messages from anywhere but the parent window change nothing. */
  lemma ForeignMessageIgnored(st: State, msg: Inbound)
    ensures Handle(st, false, msg) == st
  {
  }

  /**
   * A reply to a pending request settles it exactly once: one call, the id
   * no longer pending, no listener reached; the same message again is not
   * taken for a reply.
   */
  lemma ReplySettlesOnce(st: State, msg: Inbound, reply: Reply)
    requires AnswersPending(st, msg) && msg.data == Some(reply)
    ensures var r := Handle(st, true, msg);
      && r.calls == st.calls + [Settled(msg.requestId.value, SettleReply(reply))]
      && r.pending == st.pending - {msg.requestId.value}
      && !AnswersPending(r, msg)
  {
  }

  /** A reply without `data` leaves its request pending and calls nothing. */
  lemma ReplyWithoutDataKeepsPending(st: State, msg: Inbound)
    requires AnswersPending(st, msg) && msg.data.None?
    ensures Handle(st, true, msg) == st
  {
  }

  /** A message that answers nothing reaches each listener of its command exactly once, in the order they were added. */
  lemma BroadcastReachesEachListenerOnce(st: State, msg: Inbound)
    requires !AnswersPending(st, msg) && Truthy(msg.command) && msg.command.value in st.listeners
    requires NoRepeats(st.listeners[msg.command.value])
    ensures Handle(st, true, msg) == st.(calls := st.calls + Notifications(st.listeners[msg.command.value], msg.data))
    ensures var added := Handle(st, true, msg).calls[|st.calls|..];
      var ls := st.listeners[msg.command.value];
      && |added| == |ls|
      && (forall i :: 0 <= i < |added| ==> added[i] == Notified(ls[i], msg.data))
      && (forall l :: Notified(l, msg.data) in added <==> l in ls)
      && NoRepeatedCalls(added)
  {
    var added := Handle(st, true, msg).calls[|st.calls|..];
    var ls := st.listeners[msg.command.value];
    assert added == Notifications(ls, msg.data);
    forall l ensures Notified(l, msg.data) in added <==> l in ls {
      if l in ls {
        var i :| 0 <= i < |ls| && ls[i] == l;
        assert added[i] == Notified(l, msg.data);
      }
    }
  }

  /** No call appears twice. */
  predicate NoRepeatedCalls(cs: seq<Call>) {
    forall i, j :: 0 <= i < j < |cs| ==> cs[i] != cs[j]
  }

  /** A message whose command has no set of listeners, and that answers nothing, changes nothing. */
  lemma UnheardCommandIgnored(st: State, msg: Inbound)
    requires !AnswersPending(st, msg) && msg.command.Some? && msg.command.value !in st.listeners
    ensures Handle(st, true, msg) == st
  {
  }

  /** A message without a truthy command that answers nothing changes nothing. */
  lemma UnaddressedMessageIgnored(st: State, msg: Inbound)
    requires !AnswersPending(st, msg) && !Truthy(msg.command)
    ensures Handle(st, true, msg) == st
  {
  }

  /** `Set.prototype.add`: the callback at the end unless it is already there. */
  function Add(s: seq<Callback>, x: Callback): (r: seq<Callback>)
    ensures |s| <= |r| <= |s| + 1 && r[..|s|] == s
    ensures NoRepeats(s) ==> NoRepeats(r)
    ensures forall y :: y in r <==> y in s || y == x
  {
    if x in s then s else s + [x]
  }

  /** `Set.prototype.delete`: the callback taken out, the others kept in order. */
  function Remove(s: seq<Callback>, x: Callback): (r: seq<Callback>)
    ensures forall y :: y in r <==> y in s && y != x
    ensures NoRepeats(s) ==> NoRepeats(r)
    ensures x !in s ==> r == s
    decreases |s|
  {
    if |s| == 0 then []
    else
      var rest := Remove(s[1..], x);
      assert forall y :: y in s <==> y == s[0] || y in s[1..];
      if s[0] == x then rest
      else
        assert NoRepeats(s) ==> s[0] !in s[1..];
        [s[0]] + rest
  }

  /** In a set, `delete` takes out the one entry holding the callback and keeps the others in order. */
  lemma {:induction false} RemoveDeletesOne(s: seq<Callback>, k: nat)
    requires NoRepeats(s) && k < |s|
    ensures Remove(s, s[k]) == s[..k] + s[k + 1..]
    decreases k
  {
    var x := s[k];
    if k == 0 {
      assert x !in s[1..];
    } else {
      var tail := s[1..];
      assert s[0] != x && NoRepeats(tail) && tail[k - 1] == x;
      assert Remove(s, x) == [s[0]] + Remove(tail, x);
      RemoveDeletesOne(tail, k - 1);
      assert s[..k] == [s[0]] + tail[..k - 1];
      assert s[k + 1..] == tail[k..];
    }
  }

  /** Taking a callback out of a set it had been added to, when it was not there before, gives the set back. */
  lemma {:induction false} RemoveUndoesAdd(s: seq<Callback>, x: Callback)
    requires x !in s
    ensures Remove(Add(s, x), x) == s
    decreases |s|
  {
    if |s| > 0 {
      assert (s + [x])[1..] == s[1..] + [x];
      RemoveUndoesAdd(s[1..], x);
    } else {
      assert Add(s, x) == [x];
    }
  }

  /** `listen`: the callback added to its command's set, the set created first when absent. */
  function Subscribe(listeners: map<string, seq<Callback>>, command: string, callback: Callback): (r: map<string, seq<Callback>>)
    ensures r.Keys == listeners.Keys + {command}
    ensures r[command] == Add(if command in listeners then listeners[command] else [], callback)
    ensures callback in r[command]
    ensures forall c :: c in listeners && c != command ==> r[c] == listeners[c]
  {
    var set0 := if command in listeners then listeners[command] else [];
    listeners[command := Add(set0, callback)]
  }

  /** The function `listen` returns: the callback taken out of its command's set, if that set exists. */
  function Unsubscribed(listeners: map<string, seq<Callback>>, command: string, callback: Callback): (r: map<string, seq<Callback>>)
    ensures r.Keys == listeners.Keys
    ensures command in listeners ==> r[command] == Remove(listeners[command], callback)
    ensures command in r ==> callback !in r[command]
    ensures forall c :: c in listeners && c != command ==> r[c] == listeners[c]
  {
    if command in listeners then listeners[command := Remove(listeners[command], callback)] else listeners
  }

  /** Every command's set holds each callback once. */
  predicate SetsHaveNoRepeats(listeners: map<string, seq<Callback>>) {
    forall c :: c in listeners ==> NoRepeats(listeners[c])
  }

  /** Subscribing and unsubscribing keep every set free of repeats. */
  lemma SubscriptionsKeepSets(listeners: map<string, seq<Callback>>, command: string, callback: Callback)
    requires SetsHaveNoRepeats(listeners)
    ensures SetsHaveNoRepeats(Subscribe(listeners, command, callback))
    ensures SetsHaveNoRepeats(Unsubscribed(listeners, command, callback))
  {
  }

  /**
   * Unsubscribing right after subscribing a new callback gives the listeners
   * back, except that a set created for the subscription stays, empty.
   */
  lemma UnsubscribeUndoesSubscribe(listeners: map<string, seq<Callback>>, command: string, callback: Callback)
    requires command in listeners ==> callback !in listeners[command]
    ensures Unsubscribed(Subscribe(listeners, command, callback), command, callback)
      == if command in listeners then listeners else listeners[command := []]
  {
    var set0 := if command in listeners then listeners[command] else [];
    RemoveUndoesAdd(set0, callback);
    var sub := Subscribe(listeners, command, callback);
    var back := Unsubscribed(sub, command, callback);
    var expected := if command in listeners then listeners else listeners[command := []];
    assert back[command] == set0;
    assert back.Keys == expected.Keys;
    assert forall c :: c in back ==> back[c] == expected[c];
  }

  /** The id of a request: the command, a dash, and what the clock and the random generator gave. */
  function RequestId(command: string, suffix: string): (id: string)
    ensures |id| > |command| && id[..|command| + 1] == command + "-"
  {
    var id := command + "-" + suffix;
    assert id[..|command| + 1] == command + "-";
    id
  }

  /** `request` with a host: the request waits under its id, and the command is posted with the id added to its data. */
  function Issue(st: State, command: string, data: map<string, string>, suffix: string): (r: State)
    ensures var id := RequestId(command, suffix);
      && r.pending.Keys == st.pending.Keys + {id} && r.pending[id] == command
      && (forall other :: other in st.pending && other != id ==> r.pending[other] == st.pending[other])
      && r.posted == st.posted + [Post(command, data["requestId" := id])]
      && r.posted[|st.posted|].data["requestId"] == id
      && r.listeners == st.listeners && r.calls == st.calls
  {
    var id := RequestId(command, suffix);
    st.(pending := st.pending[id := command], posted := st.posted + [Post(command, data["requestId" := id])])
  }

  /**
   * The correlation round trip: the host's reply carrying the id of a
   * request settles that request with the reply and nothing else, and leaves
   * the pending requests as they were before it was made.
   */
  lemma ReplyCompletesRequest(st: State, command: string, data: map<string, string>, suffix: string, other: Option<string>, reply: Reply)
    requires RequestId(command, suffix) !in st.pending
    ensures var id := RequestId(command, suffix);
      var r := Handle(Issue(st, command, data, suffix), true, Inbound(Some(id), other, Some(reply)));
      && r.pending == st.pending
      && r.calls == st.calls + [Settled(id, SettleReply(reply))]
      && r.posted == st.posted + [Post(command, data["requestId" := id])]
  {
    var id := RequestId(command, suffix);
    assert id != "";
    assert st.pending[id := command] - {id} == st.pending;
  }

  /** The files the bridge answers with when there is no host. */
  const MockWorkspace: seq<WorkspaceFile> := [
    WorkspaceFile("mock/component.tsx", File),
    WorkspaceFile("mock/image.png", Image),
    WorkspaceFile("mock/styles.css", File)]

  /** A template literal's view of an argument: its text, or `undefined`. */
  function Argument(data: map<string, string>, key: string): string {
    if key in data then data[key] else "undefined"
  }

  /** The file text the bridge invents for a name when there is no host. */
  function MockFileText(fileName: string): string {
    "// Mock content for " + fileName + "\nconsole.log(\"Hello, World!\");"
  }

  /**
   * `request` without a host: the mock file list, the Base64 of the mock
   * text, or a rejection for any other command. A name beyond U+00FF makes
   * `btoa` throw `InvalidCharacterError`, synchronously in the source; here
   * it is a failed outcome like a rejection.
   */
  function NoHostReply(command: string, data: map<string, string>): (o: Outcome)
    ensures command != "getWorkspaceFiles" && command != "getFileContent" ==>
      o == Rejected("Not in a VS Code webview environment.")
  {
    if command == "getWorkspaceFiles" then Resolved(Reply(None, None, Some(MockWorkspace)))
    else if command == "getFileContent" then
      match Btoa(MockFileText(Argument(data, "fileName")))
      case Some(encoded) => Resolved(Reply(None, Some(encoded), None))
      case None => Rejected("InvalidCharacterError")
    else Rejected("Not in a VS Code webview environment.")
  }

  /** `getFileContent`: the reply's `content` decoded with `atob` (an absent one reads as `"undefined"`). */
  function FileContentOf(o: Outcome): (r: Result<string>)
    ensures o.Rejected? ==> r == Err(o.message)
    ensures r.Ok? <==> o.Resolved? && o.reply.content.Some? && Atob(o.reply.content.value).Some?
    ensures r.Ok? ==> Atob(o.reply.content.value) == Some(r.value)
  {
    AtobOfUndefinedFails();
    match o
    case Rejected(m) => Err(m)
    case Resolved(reply) =>
      match Atob(reply.content.GetOr("undefined"))
      case Some(text) => Ok(text)
      case None => Err("InvalidCharacterError")
  }

  /** `getFileContentAsBase64`: the reply's `content` as it came. */
  function FileContentAsBase64Of(o: Outcome): (r: Result<Option<string>>)
    ensures o.Rejected? ==> r == Err(o.message)
    ensures o.Resolved? ==> r == Ok(o.reply.content)
  {
    match o
    case Rejected(m) => Err(m)
    case Resolved(reply) => Ok(reply.content)
  }

  /** `getWorkspaceFiles`: the reply's `files`, or none when absent. */
  function WorkspaceFilesOf(o: Outcome): (r: Result<seq<WorkspaceFile>>)
    ensures o.Rejected? <==> r.Err?
    ensures o.Rejected? ==> r == Err(o.message)
    ensures o.Resolved? && o.reply.files.Some? ==> r == Ok(o.reply.files.value)
    ensures o.Resolved? && o.reply.files.None? ==> r == Ok([])
  {
    match o
    case Rejected(m) => Err(m)
    case Resolved(reply) => Ok(reply.files.GetOr([]))
  }

  /** What an `onWorkspaceFilesUpdate` callback receives for a message's data: its `files`, or none. */
  function UpdatedFiles(data: Option<Reply>): (r: seq<WorkspaceFile>)
    ensures data.Some? && data.value.files.Some? ==> r == data.value.files.value
    ensures data.None? || data.value.files.None? ==> r == []
  {
    match data
    case None => []
    case Some(reply) => reply.files.GetOr([])
  }

  /**
   * A pushed list and a requested list are read alike: the files of a data
   * record sent with `workspaceFiles` are what `getWorkspaceFiles` gives for
   * the same record as a reply.
   */
  lemma PushedFilesReadLikeRequested(reply: Reply)
    ensures WorkspaceFilesOf(Resolved(reply)) == Ok(UpdatedFiles(Some(reply)))
  {
  }

  /**
   * After `onWorkspaceFilesUpdate` registers a new wrapper, a `workspaceFiles`
   * message reaches the listeners registered before it, in order, and then
   * the wrapper, which hands its callback `UpdatedFiles` of the data.
   */
  lemma WorkspaceUpdateReachesNewListener(st: State, wrapper: Callback, msg: Inbound)
    requires !AnswersPending(st, msg) && msg.command == Some("workspaceFiles")
    requires "workspaceFiles" in st.listeners ==> wrapper !in st.listeners["workspaceFiles"]
    ensures var before := if "workspaceFiles" in st.listeners then st.listeners["workspaceFiles"] else [];
      var subscribed := st.(listeners := Subscribe(st.listeners, "workspaceFiles", wrapper));
      Handle(subscribed, true, msg).calls == st.calls + Notifications(before, msg.data) + [Notified(wrapper, msg.data)]
  {
    var before := if "workspaceFiles" in st.listeners then st.listeners["workspaceFiles"] else [];
    var subscribed := st.(listeners := Subscribe(st.listeners, "workspaceFiles", wrapper));
    assert subscribed.listeners["workspaceFiles"] == before + [wrapper];
    assert !AnswersPending(subscribed, msg);
    assert Notifications(before + [wrapper], msg.data) == Notifications(before, msg.data) + [Notified(wrapper, msg.data)];
  }

  /**
   * `getFileContent` is `getFileContentAsBase64` followed by `atob`: the two
   * agree on every reply that has content, and a reply without content is a
   * failure of the first and `undefined` for the second.
   */
  lemma FileContentDecodesBase64(o: Outcome)
    ensures FileContentAsBase64Of(o).Err? <==> o.Rejected?
    ensures FileContentAsBase64Of(o) == Ok(None) ==> FileContentOf(o).Err?
    ensures forall b :: FileContentAsBase64Of(o) == Ok(Some(b)) ==>
      FileContentOf(o) == match Atob(b) case Some(t) => Ok(t) case None => Err("InvalidCharacterError")
  {
    AtobOfUndefinedFails();
  }

  /** Without a host, the content of a file whose name is a byte string is the mock text for that name. */
  lemma NoHostFileContent(fileName: string)
    requires IsByteString(fileName)
    ensures FileContentOf(NoHostReply("getFileContent", map["fileName" := fileName])) == Ok(MockFileText(fileName))
  {
    var text := MockFileText(fileName);
    assert Argument(map["fileName" := fileName], "fileName") == fileName;
    assert IsByteString(text) by {
      var tail := "\nconsole.log(\"Hello, World!\");";
      assert text == "// Mock content for " + fileName + tail;
      assert forall i :: 0 <= i < |text| ==> text[i] as int < 256;
    }
    AtobOfBtoa(text);
  }

  /** Without a host, the workspace is the three mock files. */
  lemma NoHostWorkspace(data: map<string, string>)
    ensures WorkspaceFilesOf(NoHostReply("getWorkspaceFiles", data)) == Ok(MockWorkspace)
    ensures |MockWorkspace| == 3
  {
  }

  /** The bridge: its maps, and the record of what it posted and which callbacks it called. */
  class Bridge {
    /** Whether the page runs inside the editor's webview (an iframe below the top window). */
    const isHost: bool
    /** `requestCallbacks`: each pending request id and the command it was sent with. */
    var requestCallbacks: map<string, string>
    /** `messageListeners`: each command's callbacks, in the order they were added. */
    var messageListeners: map<string, seq<Callback>>
    /** The messages posted to the host, in order. */
    var posted: seq<Post>
    /** The callback calls made, in order. */
    var calls: seq<Call>

    function Snapshot(): State
      reads this
    {
      State(requestCallbacks, messageListeners, posted, calls)
    }

    ghost predicate Valid()
      reads this
    {
      SetsHaveNoRepeats(messageListeners)
    }

    constructor (isHost: bool)
      ensures Valid() && this.isHost == isHost
      ensures Snapshot() == State(map[], map[], [], [])
    {
      this.isHost := isHost;
      requestCallbacks := map[];
      messageListeners := map[];
      posted := [];
      calls := [];
    }

    /** The `message` event listener. */
    method HandleMessage(fromParent: bool, msg: Inbound)
      requires Valid()
      modifies this
      ensures Valid()
      ensures Snapshot() == Handle(old(Snapshot()), fromParent, msg)
    {
      if !fromParent {
        return;
      }
      if Truthy(msg.requestId) && msg.requestId.value in requestCallbacks {
        var id := msg.requestId.value;
        if msg.data.Some? {
          calls := calls + [Settled(id, SettleReply(msg.data.value))];
          requestCallbacks := requestCallbacks - {id};
        }
        return;
      }
      if Truthy(msg.command) && msg.command.value in messageListeners {
        var listeners := messageListeners[msg.command.value];
        var i := 0;
        while i < |listeners|
          invariant 0 <= i <= |listeners|
          invariant calls == old(calls) + Notifications(listeners[..i], msg.data)
          invariant requestCallbacks == old(requestCallbacks) && messageListeners == old(messageListeners)
          invariant posted == old(posted)
        {
          assert Notifications(listeners[..i + 1], msg.data) == Notifications(listeners[..i], msg.data) + [Notified(listeners[i], msg.data)];
          calls := calls + [Notified(listeners[i], msg.data)];
          i := i + 1;
        }
        assert listeners[..i] == listeners;
      }
    }

    /**
     * `request`: with a host, one new pending entry under an id made of the
     * command and `suffix`, and the command posted with the id added to its
     * data; without a host, the mock outcome and no change.
     */
    method Request(command: string, data: map<string, string>, suffix: string) returns (r: Requested)
      requires Valid()
      modifies this
      ensures Valid()
      ensures !isHost ==> r == Immediate(NoHostReply(command, data)) && Snapshot() == old(Snapshot())
      ensures isHost ==> r == Pending(RequestId(command, suffix)) && Snapshot() == Issue(old(Snapshot()), command, data, suffix)
    {
      if !isHost {
        return Immediate(NoHostReply(command, data));
      }
      var id := RequestId(command, suffix);
      requestCallbacks := requestCallbacks[id := command];
      posted := posted + [Post(command, data["requestId" := id])];
      r := Pending(id);
    }

    /** `listen`: the callback added to the command's set; the handle removes it again. */
    method Listen(command: string, callback: Callback) returns (sub: Subscription)
      requires Valid()
      modifies this
      ensures Valid()
      ensures sub == Subscription(command, callback)
      ensures Snapshot() == old(Snapshot()).(listeners := Subscribe(old(messageListeners), command, callback))
    {
      SubscriptionsKeepSets(messageListeners, command, callback);
      if command !in messageListeners {
        messageListeners := messageListeners[command := []];
      }
      messageListeners := messageListeners[command := Add(messageListeners[command], callback)];
      sub := Subscription(command, callback);
    }

    /** Calling the function `listen` returned. */
    method Unsubscribe(sub: Subscription)
      requires Valid()
      modifies this
      ensures Valid()
      ensures Snapshot() == old(Snapshot()).(listeners := Unsubscribed(old(messageListeners), sub.command, sub.callback))
    {
      SubscriptionsKeepSets(messageListeners, sub.command, sub.callback);
      if sub.command in messageListeners {
        messageListeners := messageListeners[sub.command := Remove(messageListeners[sub.command], sub.callback)];
      }
    }

    /**
     * `onWorkspaceFilesUpdate`: a listener of `workspaceFiles` that hands its
     * callback `UpdatedFiles` of each message's data. The listener is a new
     * closure, `wrapper`, so it is never in the set yet and every call adds
     * one more entry.
     */
    method OnWorkspaceFilesUpdate(wrapper: Callback) returns (sub: Subscription)
      requires Valid()
      requires "workspaceFiles" in messageListeners ==> wrapper !in messageListeners["workspaceFiles"]
      modifies this
      ensures Valid()
      ensures sub == Subscription("workspaceFiles", wrapper)
      ensures Snapshot() == old(Snapshot()).(listeners := Subscribe(old(messageListeners), "workspaceFiles", wrapper))
      ensures messageListeners["workspaceFiles"] ==
        (if "workspaceFiles" in old(messageListeners) then old(messageListeners)["workspaceFiles"] else []) + [wrapper]
    {
      sub := Listen("workspaceFiles", wrapper);
    }

    /** `onNewChatRequest`: the callback itself listens to `startNewChat`. */
    method OnNewChatRequest(callback: Callback) returns (sub: Subscription)
      requires Valid()
      modifies this
      ensures Valid()
      ensures sub == Subscription("startNewChat", callback)
      ensures Snapshot() == old(Snapshot()).(listeners := Subscribe(old(messageListeners), "startNewChat", callback))
    {
      sub := Listen("startNewChat", callback);
    }
  }
}
