# CodeAssist chat: a verified model of its core

CodeAssist is a chat panel for VS Code, written as a React web page. The
extension shows it in an iframe. This Dafny project models the logic beneath
the panel's interface and proves what that logic promises.

- **Renderer** (`Render`). A message is split into prose and fenced code blocks
  by ``content.split(/```(?:[a-z]+)?\n([\s\S]*?)```/g)``. Code bodies are shown
  trimmed and prose one paragraph per line. An assistant message `...` shows a
  typing indicator instead, and attachments show as badges.
- **Router** (`Router`). The server action `getAiResponse` picks one of four
  flows from the first attachment and the lower-cased message. It fences the
  code that comes back, and turns any failure into a fixed apology. The flows
  call a language model, so they are a parameter (`Flows`): functions that
  return a text or fail. The mock `getFileContent` table is written out.
- **Bridge** (`Bridge`). This is the link to the editor. The `request` map
  correlates replies with requests, and the listener registry maps commands to
  callbacks. Without a host, fixed mock answers come back. The public adapters
  are `getFileContent`, `getFileContentAsBase64`, `getWorkspaceFiles`,
  `onWorkspaceFilesUpdate` and `onNewChatRequest`. The browser's `btoa` and
  `atob` are modelled in `Base64`, with the alphabet of section 4 of RFC 4648.
- **Input form** (`Composer`). This covers the typed text, the attachments,
  the `@`-mention file list with its highlighted entry, and the key handling.
- **Conversation** (`Conversation`). This covers the message list and the
  `isSending` flag. Sending is cut at its `await` into `BeginSend` and
  `CompleteSend`.

The modules `Wrappers` (`Option`, `Result`), `Types` (messages, attachments,
workspace files) and `Strings` are shared by the others. `Strings` holds
JavaScript's `includes`, `lastIndexOf`, `toLowerCase`, `trim`, `split('\n')`
and `String(n)`.

The source's mutable state is modelled as classes: `Bridge.Bridge`,
`Composer.ChatInput` and `Conversation.ChatLayout`. Each method's
postcondition ties the new state to a pure function of the old state. For
example, `Snapshot() == Handle(old(Snapshot()), fromParent, msg)`. The lemmas
about those functions state what the source promises. The bridge cannot see
the callbacks it calls, so it records each call in `calls`, in order. It
records each message posted to the host in `posted`.

## Model

| member | source | states |
|---|---|---|
| Strings.IndexOf | src/components/chat/chat-message.tsx:34 | the first index holding the character, with none before it, or -1 exactly when it does not occur; `split` cuts there |
| Strings.IncludesBounds | src/app/actions.ts:58 | `includes` holds for the empty text and for the text itself, and never for a longer text |
| Strings.ToLower | src/app/actions.ts:56 | `toLowerCase` keeps the length, leaves no `A`–`Z`, and changes only those letters, each to its lower-case form |
| Strings.ToLowerIdempotent | src/components/chat/chat-input.tsx:145-152 | lower-casing an already lower-cased text changes nothing |
| Strings.LastIndexOf | src/components/chat/chat-input.tsx:76 | `lastIndexOf('@')` is -1 exactly when there is no `@`; otherwise it holds `@` and none follows |
| Strings.Trim | src/components/chat/chat-message.tsx:30 | `trim()` leaves a text with no whitespace at either end and only whitespace was cut from both sides |
| Strings.TrimUnique | src/components/chat/chat-message.tsx:30 | whitespace around a trimmed text is cut away to exactly that text |
| Strings.TrimEmptyIffAllWhitespace | src/components/chat/chat-input.tsx:97 | `trim()` is empty exactly when every character is whitespace |
| Strings.Lines | src/components/chat/chat-message.tsx:34 | `split('\n')` gives at least one piece and no piece holds a line break |
| Strings.JoinLinesOfLines | src/components/chat/chat-message.tsx:34 | joining the lines with `\n` gives the text back |
| Strings.LinesOfJoinLines | src/components/chat/chat-message.tsx:34 | splitting joined line-break-free pieces gives the pieces back |
| Strings.DecimalStringInjective | src/components/chat/chat-layout.tsx:26-36 | different clock readings give different ids `String(n)` |
| Render.Parse | src/components/chat/chat-message.tsx:22-23 | `split` with one capture group gives two parts per match plus one |
| Render.FenceAtIsTheMatch | src/components/chat/chat-message.tsx:22 | the match at an index is exactly a fence of the regular expression's shape: backticks, a lower-case tag, a line break, the shortest body, backticks |
| Render.FirstFenceIsLeftmost | src/components/chat/chat-message.tsx:22-23 | the match `split` takes is the leftmost one |
| Render.MatchesAreLeftmost | src/components/chat/chat-message.tsx:22-23 | no match starts between one match found and the next |
| Render.ParseAlternates | src/components/chat/chat-message.tsx:22-26 | the split has odd length, prose at even positions and the matched bodies at odd positions, in order |
| Render.ParseReassembles | src/components/chat/chat-message.tsx:22-23 | the parts, fences written back, are the whole message |
| Render.ParseCodeIsWellFormed | src/components/chat/chat-message.tsx:22 | every captured tag is lower-case and every body is the shortest, holding no three backticks |
| Render.ParseStartsAtLeftmostMatch | src/components/chat/chat-message.tsx:22-23 | the first prose runs up to the leftmost match and the first code part is that match |
| Render.ParseWithoutFence | src/components/chat/chat-message.tsx:22-23 | a message is one prose part equal to itself exactly when no fence matches in it |
| Render.RenderContent | src/components/chat/chat-message.tsx:21-42 | one block per part of the split |
| Render.RenderContentShowsParts | src/components/chat/chat-message.tsx:25-41 | code parts are shown as their trimmed bodies with the tag dropped; prose parts as lines that join back to the prose |
| Render.ParseExample | src/components/chat/chat-message.tsx:22-23 | ``"intro\n```js\nconsole.log(1)\n```\nend"`` splits into `"intro\n"`, the body `"console.log(1)\n"` and `"\nend"` |
| Render.RenderExample | src/components/chat/chat-message.tsx:25-41 | that message shows as paragraphs `intro`, empty, the code `console.log(1)`, then paragraphs empty, `end` |
| Render.MessageBody | src/components/chat/chat-message.tsx:90-98 | the typing indicator shows exactly for an assistant message `...`; any other message is rendered |
| Render.AttachmentBadges | src/components/chat/chat-message.tsx:79-87 | one badge per attachment, in order, with its name and icon; none without attachments |
| Router.IncludesAny | src/app/actions.ts:66-75 | `some(includes)` holds exactly when one of the keywords occurs |
| Router.Route | src/app/actions.ts:52-92 | generate exactly when the first attachment is not a file; summarize exactly when it is a file and the message has `summarize`; refactor exactly when it is a file, no `summarize`, and a refactor keyword occurs |
| Router.RouteIgnoresLaterAttachments | src/app/actions.ts:52-53 | attachments after the first never change the flow |
| Router.SummaryWinsOverRefactoring | src/app/actions.ts:58-75 | a message asking for both a summary and a change gets the summary |
| Router.FlowOutcome | src/app/actions.ts:52-93 | the flow `Route` picks runs: generate on the message; summarize, refactor and contextual on the first attachment's name and its mock text, with the message where the source passes it |
| Router.GetAiResponse | src/app/actions.ts:47-98 | a failed flow gives the apology; otherwise the flow's text, fenced as `tsx` for refactor and generate |
| Router.ReplyIgnoresLaterAttachments | src/app/actions.ts:52-53 | the reply does not depend on attachments after the first |
| Router.MockFileContent | src/app/actions.ts:11-45 | the table's text for the four known files, `Content of <name> not found.` for any other name |
| Router.MockTableKnowsFourFiles | src/app/actions.ts:12-43 | the table holds exactly four names, none with empty text |
| Router.FileContentAsWritten | src/app/actions.ts:44 | as written, the lookup yields no text exactly for names inherited from `Object.prototype` |
| Router.InheritedNameYieldsNoText | src/app/actions.ts:44 | a file named `toString` gets no text from the lookup as written, although it is not in the table |
| Router.MockAgreesWithLookupAsWritten | src/app/actions.ts:44 | for every other name the lookup as written and the mock agree |
| Router.WrappedReplyParses | src/app/actions.ts:81-93 | a fenced reply whose code has no backticks splits into empty prose, the code plus a line break, empty prose |
| Router.WrappedReplyRenders | src/app/actions.ts:81-93 | such a reply shows as one code block, the trimmed code |
| Router.CodeReplyRendersOneBlock | src/app/actions.ts:76-93 | a refactoring or generation that succeeds with backtick-free code is displayed as exactly that code, in one block |
| Router.StubReplyEchoesMessage | src/ai/flows/generate-code-from-prompt.ts:50-57 | with the stand-in generator, a message without a file and without three backticks comes back as one code block holding the stub's prefix and the message, trimmed, between two empty paragraphs |
| Base64.Btoa | src/lib/vscode.ts:69 | `btoa` fails exactly on a character above U+00FF; its output length is a multiple of 4 |
| Base64.StripWhitespace | src/lib/vscode.ts:114 | the first step of `atob`: no ASCII whitespace remains, and every other character of the input does |
| Base64.StripWhitespaceOne | src/lib/vscode.ts:114 | one character is dropped exactly when it is ASCII whitespace |
| Base64.StripWhitespaceConcat | src/lib/vscode.ts:114 | stripping works piece by piece, so the kept characters stay in order, each once |
| Base64.StripPadding | src/lib/vscode.ts:114 | on a text whose length is a multiple of 4, two trailing `=` are cut, else one trailing `=` is cut; nothing else is ever cut |
| Base64.DecodeDigits | src/lib/vscode.ts:114 | the digits decode to a byte string |
| Base64.Atob | src/lib/vscode.ts:114 | `atob`'s output is a byte string |
| Base64.AtobOfBtoa | src/lib/vscode.ts:69-114 | `atob(btoa(s)) == s` for every string `btoa` accepts |
| Base64.AtobIgnoresWhitespace | src/lib/vscode.ts:114 | whitespace anywhere in the input does not change what `atob` gives |
| Base64.AtobOfUndefinedFails | src/lib/vscode.ts:114 | `atob` of an absent content (read as `"undefined"`) fails |
| Bridge.SettleReply | src/lib/vscode.ts:76-82 | a reply with a non-empty `error` rejects with that text; otherwise the whole reply resolves |
| Bridge.Notifications | src/lib/vscode.ts:35-40 | one call per listener, in the set's order, each with the message's data |
| Bridge.Handle | src/lib/vscode.ts:18-41 | the handler never touches listeners or posts, only grows the call record, and removes at most one pending request |
| Bridge.ForeignMessageIgnored | src/lib/vscode.ts:21-23 | a message not from the parent window changes nothing |
| Bridge.ReplySettlesOnce | src/lib/vscode.ts:28-32 | a reply to a pending request settles it with its data exactly once, removes it and reaches no listener |
| Bridge.ReplyWithoutDataKeepsPending | src/lib/vscode.ts:29-30 | a reply without `data` throws before the entry is removed: nothing changes |
| Bridge.BroadcastReachesEachListenerOnce | src/lib/vscode.ts:35-40 | any other message with a command only appends the calls: each listener of it once, in the order they were added; pending requests, listeners and posts stay |
| Bridge.UnheardCommandIgnored | src/lib/vscode.ts:35-37 | a message whose command has no set of listeners changes nothing |
| Bridge.UnaddressedMessageIgnored | src/lib/vscode.ts:28-40 | a message with no pending id and no command changes nothing |
| Bridge.Add | src/lib/vscode.ts:92 | `Set.add` keeps the callbacks in order and appends the new one at the end, unless it is already there |
| Bridge.Remove | src/lib/vscode.ts:94 | `Set.delete` takes out the callback, keeps the others in order and keeps the set free of repeats |
| Bridge.RemoveDeletesOne | src/lib/vscode.ts:94 | `Set.delete` removes the one entry holding the callback and keeps the others in order |
| Bridge.Subscribe | src/lib/vscode.ts:88-92 | `listen` adds the callback to its command's set with `Set.add`, creating the set, and leaves other commands alone |
| Bridge.Unsubscribed | src/lib/vscode.ts:93-95 | the returned function takes the callback out of its command's set with `Set.delete` and leaves other commands alone |
| Bridge.UnsubscribeUndoesSubscribe | src/lib/vscode.ts:88-95 | unsubscribing a new callback right after subscribing it restores the listeners, except that a newly created set stays, empty |
| Bridge.SubscriptionsKeepSets | src/lib/vscode.ts:88-95 | subscribing and unsubscribing keep each set free of repeats |
| Bridge.RequestId | src/lib/vscode.ts:75 | a request id starts with the command and a dash |
| Bridge.Issue | src/lib/vscode.ts:74-85 | with a host, `request` adds exactly one pending entry and posts the command with `requestId` added to its data |
| Bridge.ReplyCompletesRequest | src/lib/vscode.ts:28-85 | the reply carrying a request's id settles exactly that request and restores the pending map |
| Bridge.NoHostReply | src/lib/vscode.ts:56-72 | without a host, any command other than the two mocked ones is rejected |
| Bridge.NoHostFileContent | src/lib/vscode.ts:110-117 | without a host, `getFileContent` gives the mock text for the name |
| Bridge.NoHostWorkspace | src/lib/vscode.ts:133-137 | without a host, the workspace is the three mock files |
| Bridge.WorkspaceFilesOf | src/lib/vscode.ts:133-137 | `getWorkspaceFiles` fails with the rejection's message exactly when the request is rejected; otherwise it gives the reply's `files`, and none when `files` is missing |
| Bridge.FileContentAsBase64Of | src/lib/vscode.ts:124-128 | `getFileContentAsBase64` fails with the rejection's message, or gives the reply's `content` as it came |
| Bridge.FileContentOf | src/lib/vscode.ts:110-117 | `getFileContent` fails with a rejection's message; it succeeds exactly when the reply has a `content` that `atob` accepts, and then gives `atob` of it |
| Bridge.UpdatedFiles | src/lib/vscode.ts:145-148 | the `onWorkspaceFilesUpdate` wrapper hands its callback the data's `files`, and none when the data or its `files` is missing |
| Bridge.PushedFilesReadLikeRequested | src/lib/vscode.ts:133-148 | a pushed `workspaceFiles` record and a requested reply give the same file list |
| Bridge.WorkspaceUpdateReachesNewListener | src/lib/vscode.ts:35-40 | after `onWorkspaceFilesUpdate`, a `workspaceFiles` message reaches the earlier listeners in order, then the new wrapper |
| Bridge.FileContentDecodesBase64 | src/lib/vscode.ts:110-128 | `getFileContent` is `atob` of what `getFileContentAsBase64` returns for the same reply; an absent content fails |
| Bridge.Bridge.HandleMessage | src/lib/vscode.ts:18-41 | the inbound handler performs `Handle` on the bridge's maps, its loop calling the listeners in order |
| Bridge.Bridge.Request | src/lib/vscode.ts:56-86 | with a host, performs `Issue` and returns the id; without one, returns the mock outcome and changes nothing |
| Bridge.Bridge.Listen | src/lib/vscode.ts:88-92 | performs `Subscribe` on `messageListeners` |
| Bridge.Bridge.Unsubscribe | src/lib/vscode.ts:93-95 | performs `Unsubscribed` on `messageListeners` |
| Bridge.Bridge.OnWorkspaceFilesUpdate | src/lib/vscode.ts:142-149 | adds one new wrapping listener at the end of the `workspaceFiles` set |
| Bridge.Bridge.OnNewChatRequest | src/lib/vscode.ts:154-158 | the callback listens to `startNewChat` |
| Composer.MentionIsUnspacedAt | src/components/chat/chat-input.tsx:76-78 | the test "last `@` has no space after it" holds exactly when some `@` has no space after it |
| Composer.InputChanged | src/components/chat/chat-input.tsx:74-86 | the list opens exactly when some `@` has no space after it; the text is the new value and the highlight goes to the top |
| Composer.FileSelected | src/components/chat/chat-input.tsx:88-94 | the file is appended; the text from the last `@` on becomes one space; the list closes; the highlight goes to the top |
| Composer.SendStep | src/components/chat/chat-input.tsx:96-104 | something is sent exactly when the guard holds, and then it is the text as typed with the attachments, and both are cleared; otherwise nothing changes |
| Composer.CanSendIff | src/components/chat/chat-input.tsx:97 | the guard holds exactly when some character is not whitespace or something is attached |
| Composer.SendButtonMatchesGuard | src/components/chat/chat-input.tsx:276 | the send button is enabled exactly when not sending and a click would send |
| Composer.Filter | src/components/chat/chat-input.tsx:148-154 | a file is listed exactly when it is in the workspace, not attached by name, and its lower-cased name contains the term |
| Composer.FilterConcat | src/components/chat/chat-input.tsx:148-154 | the list keeps the workspace's order |
| Composer.SearchTerm | src/components/chat/chat-input.tsx:142-146 | empty unless a mention is searched; then the lower-cased text after an `@` with no `@` after it, i.e. the last one |
| Composer.FilteredFiles | src/components/chat/chat-input.tsx:142-154 | the list is empty unless a mention is being searched; then it is exactly `Filter` of the workspace files by the attachments and the lower-cased text after the last `@`, so workspace order and multiplicity are kept |
| Composer.ListedFilesAreNotAttached | src/components/chat/chat-input.tsx:151 | no listed file has the name of an attachment |
| Composer.FilterFewerAttachments | src/components/chat/chat-input.tsx:151 | fewer attached names list at least as many files |
| Composer.Next | src/components/chat/chat-input.tsx:110 | `(i + 1) % n` stays in the list: the next entry, or the top after the last |
| Composer.Prev | src/components/chat/chat-input.tsx:113-115 | `(i - 1 + n) % n` stays in the list: the previous entry, or the bottom before the top |
| Composer.KeyStep | src/components/chat/chat-input.tsx:106-124 | key handling keeps the highlight on the list whenever it is open and not empty; on the open list ArrowDown moves it to `Next` and ArrowUp to `Prev`, changing nothing else; on the open list Enter is `FileSelected` of the highlighted file; with the list closed or empty, Enter without Shift is `SendStep` and every other key, Shift+Enter included, changes nothing; any other key changes nothing |
| Composer.ArrowsStayInList | src/components/chat/chat-input.tsx:108-115 | the arrows change only the highlight, moving it round the list with `Next` or `Prev`; it stays in `[0, n)` and the list stays the same |
| Composer.ArrowUpUndoesArrowDown | src/components/chat/chat-input.tsx:108-115 | ArrowUp after ArrowDown returns to the same state |
| Composer.EnterAttachesHighlighted | src/components/chat/chat-input.tsx:88-118 | Enter on the open list is `handleFileSelect` of the highlighted file: it is attached (a workspace file not attached before), the text is cut at the last `@`, the list closes and the highlight goes to the top |
| Composer.EnterWithoutListSends | src/components/chat/chat-input.tsx:120-123 | Enter without Shift and with no list to pick from is `handleSend` |
| Composer.RemoveAt | src/components/chat/chat-input.tsx:247-250 | removing badge `i` deletes exactly that element and keeps the others in order |
| Composer.BadgeRemoved | src/components/chat/chat-input.tsx:247-250 | removing a badge keeps the highlight on the list |
| Composer.QuickAction | src/components/chat/chat-input.tsx:156-159 | a quick action puts its text in the input and keeps the highlight on the list |
| Composer.FilesUpdatedAsWritten | src/components/chat/chat-input.tsx:50-51 | as written, a new workspace list replaces the old one and leaves the highlight, text, attachments and popover as they were |
| Composer.StaleHighlightAfterFilesUpdate | src/components/chat/chat-input.tsx:50-118 | after `@`, two ArrowDowns over three files and an update to one file, the highlight is past the end of the open list |
| Composer.FilesUpdated | src/components/chat/chat-input.tsx:50-51 | a new workspace list with the highlight reset keeps it on the list |
| Composer.ChatInput.InputChange | src/components/chat/chat-input.tsx:74-86 | performs `InputChanged` on the fields |
| Composer.ChatInput.FileSelect | src/components/chat/chat-input.tsx:88-94 | performs `FileSelected` on the fields |
| Composer.ChatInput.Send | src/components/chat/chat-input.tsx:96-104 | performs `SendStep` and returns what was sent |
| Composer.ChatInput.KeyDown | src/components/chat/chat-input.tsx:106-124 | performs `KeyStep` and returns what was sent |
| Composer.ChatInput.RemoveBadge | src/components/chat/chat-input.tsx:247-250 | performs `BadgeRemoved` on the fields |
| Composer.ChatInput.QuickActionClick | src/components/chat/chat-input.tsx:156-159 | performs `QuickAction` on the fields |
| Composer.ChatInput.SetWorkspaceFiles | src/components/chat/chat-input.tsx:49-53 | stores a new workspace list with the highlight reset (see Findings) |
| Conversation.ChatLayout.constructor | src/components/chat/chat-layout.tsx:10-18 | the conversation starts with the assistant's greeting, id `1`, and nothing in flight |
| Conversation.UserMessage | src/components/chat/chat-layout.tsx:27-32 | the user's message has the id `String(now)`, the role user and the attachments, and renders its text |
| Conversation.Placeholder | src/components/chat/chat-layout.tsx:35-39 | the placeholder has the id `String(now + 1)`, the role assistant, and shows the typing indicator |
| Conversation.SameInstantIdsDiffer | src/components/chat/chat-layout.tsx:28-36 | even when both clock reads give the same time, the user's message and the placeholder have different ids |
| Conversation.Begin | src/components/chat/chat-layout.tsx:24-40 | while sending, nothing changes; otherwise the flag is set and exactly the user's message and the `...` placeholder are appended |
| Conversation.BeginWhileSendingIgnored | src/components/chat/chat-layout.tsx:24 | a send while another is in flight changes nothing |
| Conversation.ReplaceContent | src/components/chat/chat-layout.tsx:44-49 | exactly the messages with the id get the new content; length and order stay |
| Conversation.ReplaceKeepsShape | src/components/chat/chat-layout.tsx:44-49 | ids, roles and attachments stay; only messages with the id can change content |
| Conversation.ReplaceUniqueId | src/components/chat/chat-layout.tsx:44-49 | when only the placeholder has its id, only the placeholder changes |
| Conversation.Complete | src/components/chat/chat-layout.tsx:42-65 | the placeholder gets the reply or the error text, and the flag is cleared on both paths |
| Conversation.PlaceholderShowsTyping | src/components/chat/chat-layout.tsx:35-40 | until the reply arrives the placeholder shows the typing indicator |
| Conversation.FirstExchange | src/components/chat/chat-layout.tsx:10-65 | one whole send from the start gives the greeting, the user's message and the reply, with nothing in flight |
| Conversation.ChatLayout.BeginSend | src/components/chat/chat-layout.tsx:24-40 | performs `Begin` and returns the placeholder's id when accepted |
| Conversation.ChatLayout.CompleteSend | src/components/chat/chat-layout.tsx:42-65 | performs `Complete` |

## Left out

- The language-model flows are parameters (`Router.Flows`). They are prompt templates over an external service, so their results are uninterpreted texts or failures.
- The `generateCode` stand-in appears only as `Router.GenerateStub`, in one lemma.
- Whether the page is inside the editor's iframe is the constant `Bridge.Bridge.isHost`.
- `event.source === window.parent` is the parameter `fromParent`.
- `window.postMessage` is recorded in `posted`, and `console.log` is left out.
- `Date.now()` and `Math.random()` are parameters: the request id's suffix and the two clock readings of a send. Ids are not claimed unique, because the source does not make them so.
- Promises and callbacks:
  - A settled request is recorded as a `Settled` call.
  - What each adapter makes of the outcome is a function of it (`Bridge.FileContentOf`, `Bridge.FileContentAsBase64Of`, `Bridge.WorkspaceFilesOf`, `Bridge.UpdatedFiles`).
  - The `await` in `handleSendMessage` is the split between `BeginSend` and `CompleteSend`.
  - React's batching and stale closures are not modelled.
- Router.GetAiResponse: the flows are given `Router.MockFileContent`, the corrected lookup (see Findings). With the lookup as written, an attachment named after an `Object.prototype` member hands the flow a function. The flow's string schema refuses that, and the user gets the apology. The model does not state this reply.
- Bridge.NoHostReply: `btoa` throwing on a name above U+00FF is a synchronous exception in the source. Here it is a failed outcome like a rejection.
- Base64.Atob: the result is a byte string, one character per byte, as the code returns. The comment at src/lib/vscode.ts:107 and 113 speaks of UTF-8 decoding, which the code does not do.
- Bridge.Inbound: a message is a record with optional `requestId`, `command` and `data` strings and fields. Other JavaScript values (`null` data, numbers where strings are expected) are not modelled.
- Strings.ToLower: only `A`–`Z` are lower-cased. This is exact for the router's keywords, since no other character lower-cases into ASCII letters that could form one. For file-name search, other cased characters compare as typed.
- The rendering of the panel is not modelled: JSX, CSS, focus, `setTimeout` and the icons.
- The list shows only its first 50 entries, a display limit that is not modelled. The arrows cycle over the whole list, as `Composer.KeyStep` states.
- Clicking outside the form closes the list (src/components/chat/chat-input.tsx:126-139). This is a DOM event and is not modelled; closing the list keeps every invariant here.
- The image previews fetched for attachments (src/components/chat/chat-input.tsx:56-72) and their `filePreview` state are not modelled.
- The text area is disabled while a message is in flight (src/components/chat/chat-input.tsx:267). `KeyDown` and `InputChange` do not take that flag; the send button's rule is `Composer.SendButtonDisabled`.
- The list of messages in src/components/chat/chat-messages.tsx, the sample `MOCK_FILES`, src/ai/dev.ts and the prompt texts in src/ai/flows are not part of this model.

## Findings

| source | as written | input that shows it | evidently intended | confidence | as-written member | corrected member |
|---|---|---|---|---|---|---|
| src/app/actions.ts:44 | `mockContent[fileName]` also reads members inherited from `Object.prototype`, giving a function instead of text | an attached file named `toString` (or `constructor`, `valueOf`, …) | an unknown name gets `Content of <name> not found.` | high; not executed | Router.InheritedNameYieldsNoText | Router.MockFileContent |
| src/components/chat/chat-input.tsx:50-118 | a new workspace list keeps `fileListIndex`; after the list shrinks, Enter reads `filteredFiles[fileListIndex]` past the end and attaches `undefined` | type `@` with files `a.ts`, `b.ts`, `c.ts`; press ArrowDown twice; the host updates the list to `a.ts`; press Enter | the highlight always designates a listed file; resetting it on a list update, as `handleInputChange` does, keeps that | medium; not executed | Composer.StaleHighlightAfterFilesUpdate | Composer.FilesUpdated |
