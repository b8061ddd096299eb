/**
 * How the server action answers a chat message (src/app/actions.ts).
 *
 * `getAiResponse` picks one of four flows from the first attachment and the
 * lower-cased message, runs it on the attachment's content, and wraps the
 * code that the refactor and generate flows return in a `tsx` fence. The
 * flows call a language model: here they are parameters that settle with a
 * text or fail, and any failure becomes a fixed apology.
 */
module Router {
  import opened Wrappers
  import opened Strings
  import opened Types
  import opened Render

  /** The flow that answers a message. */
  datatype Branch = Summarize | Refactor | Contextual | Generate

  /** The words that ask for a refactoring, in the order they are tried. */
  const RefactorKeywords: seq<string> := ["refactor", "change", "update", "modify", "rewrite"]

  /** `keywords.some((keyword) => s.includes(keyword))`. */
  function IncludesAny(s: string, keywords: seq<string>): (r: bool)
    ensures r <==> exists i :: 0 <= i < |keywords| && Includes(s, keywords[i])
  {
    if |keywords| == 0 then false
    else
      var r := Includes(s, keywords[0]) || IncludesAny(s, keywords[1..]);
      assert forall i :: 1 <= i < |keywords| ==> keywords[i] == keywords[1..][i - 1];
      r
  }

  /** The first attachment exists and is a file rather than an image. */
  predicate FirstIsFile(attachments: seq<FileAttachment>) {
    |attachments| > 0 && attachments[0].kind == File
  }

  /**
   * The flow `getAiResponse` runs. Only the first attachment is looked at; a
   * summary request wins over a refactoring request; without a file, code is
   * generated from the message.
   */
  function Route(message: string, attachments: seq<FileAttachment>): (b: Branch)
    ensures b == Generate <==> !FirstIsFile(attachments)
    ensures b == Summarize <==> FirstIsFile(attachments) && Includes(ToLower(message), "summarize")
    ensures b == Refactor <==>
      && FirstIsFile(attachments)
      && !Includes(ToLower(message), "summarize")
      && exists i :: 0 <= i < |RefactorKeywords| && Includes(ToLower(message), RefactorKeywords[i])
  {
    if FirstIsFile(attachments) then
      var lower := ToLower(message);
      if Includes(lower, "summarize") then Summarize
      else if IncludesAny(lower, RefactorKeywords) then Refactor
      else Contextual
    else Generate
  }

  /** Attachments after the first never change the flow. */
  lemma RouteIgnoresLaterAttachments(message: string, first: FileAttachment, rest: seq<FileAttachment>, other: seq<FileAttachment>)
    ensures Route(message, [first] + rest) == Route(message, [first] + other)
  {
  }

  /** A message that asks both for a summary and for a change of a file gets the summary. */
  lemma SummaryWinsOverRefactoring(message: string, attachments: seq<FileAttachment>, i: nat)
    requires FirstIsFile(attachments) && i < |RefactorKeywords|
    requires Includes(ToLower(message), "summarize") && Includes(ToLower(message), RefactorKeywords[i])
    ensures Route(message, attachments) == Summarize
  {
  }

  /**
   * The model calls the flows make, each settling with its text output or
   * failing: `summarize(code, fileName)`, `refactor(code, fileName, request)`,
   * `contextual(currentFileContent, query)` and `generate(prompt)`.
   */
  datatype Flows = Flows(
    summarize: (string, string) -> Result<string>,
    refactor: (string, string, string) -> Result<string>,
    contextual: (string, string) -> Result<string>,
    generate: string -> Result<string>)

  /** The reply when a flow fails. */
  const Apology: string := "Sorry, I encountered an error. Please try again."

  /** Code returned by the refactor and generate flows, fenced for the renderer. */
  function WrapTsx(code: string): string {
    "```tsx\n" + code + "\n```"
  }

  /** The reply made of a flow's outcome: its text, fenced if `fence`, or the apology when it failed. */
  function Settle(outcome: Result<string>, fence: bool): string {
    match outcome
    case Ok(text) => if fence then WrapTsx(text) else text
    case Err(_) => Apology
  }

  /** The outcome of the flow `Route` picks, run on the first attachment's content where it needs one. */
  function FlowOutcome(flows: Flows, message: string, attachments: seq<FileAttachment>): (r: Result<string>)
    ensures Route(message, attachments) == Generate ==> r == flows.generate(message)
    ensures Route(message, attachments) != Generate ==>
      var name := attachments[0].name;
      var code := MockFileContent(name);
      && (Route(message, attachments) == Summarize ==> r == flows.summarize(code, name))
      && (Route(message, attachments) == Refactor ==> r == flows.refactor(code, name, message))
      && (Route(message, attachments) == Contextual ==> r == flows.contextual(code, message))
  {
    match Route(message, attachments)
    case Generate => flows.generate(message)
    case Summarize =>
      var name := attachments[0].name;
      flows.summarize(MockFileContent(name), name)
    case Refactor =>
      var name := attachments[0].name;
      flows.refactor(MockFileContent(name), name, message)
    case Contextual =>
      flows.contextual(MockFileContent(attachments[0].name), message)
  }

  /**
   * `getAiResponse`: the chosen flow's text, fenced for the refactor and
   * generate flows; it never fails, a failed flow giving the apology.
   */
  function GetAiResponse(flows: Flows, message: string, attachments: seq<FileAttachment>): (reply: string)
    ensures FlowOutcome(flows, message, attachments).Err? ==> reply == Apology
    ensures FlowOutcome(flows, message, attachments).Ok? ==>
      var text := FlowOutcome(flows, message, attachments).value;
      reply == if Route(message, attachments) in {Refactor, Generate} then WrapTsx(text) else text
  {
    var b := Route(message, attachments);
    Settle(FlowOutcome(flows, message, attachments), b == Refactor || b == Generate)
  }

  /** The reply does not depend on attachments after the first. */
  lemma ReplyIgnoresLaterAttachments(flows: Flows, message: string, first: FileAttachment, rest: seq<FileAttachment>, other: seq<FileAttachment>)
    ensures GetAiResponse(flows, message, [first] + rest) == GetAiResponse(flows, message, [first] + other)
  {
    RouteIgnoresLaterAttachments(message, first, rest, other);
    assert ([first] + rest)[0] == ([first] + other)[0];
  }

  /** The mock workspace: the text of each file the lookup knows. */
  const PackageJson: string := "{\n  \"name\": \"codeassist-chat\",\n  \"version\": \"0.1.0\",\n  \"private\": true,\n  \"scripts\": {\n    \"dev\": \"next dev\",\n    \"build\": \"next build\",\n    \"start\": \"next start\",\n    \"lint\": \"next lint\"\n  }\n}"
  const TailwindConfig: string := "/** @type {import('tailwindcss').Config} */\nmodule.exports = {\n  content: [\"./src/**/*.{js,ts,jsx,tsx}\"],\n  theme: {\n    extend: {},\n  },\n  plugins: [],\n};"
  const PageTsx: string := "import { ChatLayout } from '@/components/chat/chat-layout';\n\nexport default function Home() {\n  return (\n    <div className=\"h-screen w-full\">\n      <ChatLayout />\n    </div>\n  );\n}"
  const ReadmeMd: string := "# CodeAssist Chat\nThis is a VS Code extension that integrates a React-based web chat interface."

  const MockTable: map<string, string> := map[
    "package.json" := PackageJson,
    "tailwind.config.ts" := TailwindConfig,
    "src/app/page.tsx" := PageTsx,
    "README.md" := ReadmeMd]

  /** The text for a file the table does not hold. */
  function NotFound(name: string): string {
    "Content of " + name + " not found."
  }

  /** The mock `getFileContent`: the table's text for a known file, the not-found text for any other name. */
  function MockFileContent(name: string): (text: string)
    ensures name in MockTable ==> text == MockTable[name]
    ensures name !in MockTable ==> text == NotFound(name)
  {
    if name in MockTable then MockTable[name] else NotFound(name)
  }

  /** The lookup knows exactly four files, and none of them is empty. */
  lemma MockTableKnowsFourFiles()
    ensures MockTable.Keys == {"package.json", "tailwind.config.ts", "src/app/page.tsx", "README.md"}
    ensures forall name :: name in MockTable ==> MockTable[name] != ""
  {
  }

  /** The members every JavaScript object inherits from `Object.prototype`. */
  const ObjectPrototypeMembers: set<string> := {
    "constructor", "hasOwnProperty", "isPrototypeOf", "propertyIsEnumerable",
    "toLocaleString", "toString", "valueOf", "__proto__",
    "__defineGetter__", "__defineSetter__", "__lookupGetter__", "__lookupSetter__"}

  /** What reading a property of the table object yields: its own text, an inherited non-string member, or nothing. */
  datatype PropertyValue = Own(text: string) | InheritedMember | Undefined

  function ReadProperty(name: string): PropertyValue {
    if name in MockTable then Own(MockTable[name])
    else if name in ObjectPrototypeMembers then InheritedMember
    else Undefined
  }

  /**
   * `mockContent[fileName] || fallback` as written: a non-empty own text, or
   * an inherited member (truthy but not a string, so every flow rejects it as
   * its `code` input), or else the not-found text. `None` stands for the
   * non-string value.
   */
  function FileContentAsWritten(name: string): (r: Option<string>)
    ensures r.None? <==> name !in MockTable && name in ObjectPrototypeMembers
  {
    match ReadProperty(name)
    case Own(text) => if text != "" then Some(text) else Some(NotFound(name))
    case InheritedMember => None
    case Undefined => Some(NotFound(name))
  }

  /** A workspace file named `toString` is not in the table, yet the lookup as written yields no text for it. */
  lemma InheritedNameYieldsNoText()
    ensures "toString" !in MockTable && FileContentAsWritten("toString") == None
    ensures MockFileContent("toString") == "Content of toString not found."
  {
  }

  /** Apart from the names every object inherits, the lookup as written and the mock agree. */
  lemma MockAgreesWithLookupAsWritten(name: string)
    requires name !in ObjectPrototypeMembers
    ensures FileContentAsWritten(name) == Some(MockFileContent(name))
  {
    MockTableKnowsFourFiles();
  }

  /**
   * Three backticks cannot straddle the line break the wrapper adds, so a
   * body of backtick-free code and that line break is the shortest body.
   */
  lemma WrappedBodyIsShortest(code: string)
    requires !Includes(code, Ticks)
    ensures ShortestBody(code + "\n")
  {
    var b := code + "\n";
    var t := b + Ticks;
    assert t[|code|] == '\n';
    forall k | 0 <= k < |b| ensures !OccursAt(t, Ticks, k) {
      if k + 3 <= |code| {
        assert t[k..k + 3] == code[k..k + 3];
        assert !OccursAt(code, Ticks, k);
      } else {
        assert t[k..k + 3][|code| - k] == t[|code|];
      }
    }
  }

  /** The wrapper writes out a `tsx` fence around the code and a line break. */
  lemma WrapIsFenceText(code: string)
    ensures WrapTsx(code) == FenceText(Fence("tsx", code + "\n"))
  {
  }

  /** The renderer finds the wrapped code as its only match, at the very start. */
  lemma WrappedMatchesOnce(code: string)
    requires !Includes(code, Ticks)
    ensures Matches(WrapTsx(code), 0) == [Found(0, Fence("tsx", code + "\n"))]
  {
    var s, f := WrapTsx(code), Fence("tsx", code + "\n");
    WrapIsFenceText(code);
    WrappedBodyIsShortest(code);
    assert OccursAt(s, FenceText(f), 0) by {
      assert s[0..|s|] == s;
    }
    assert IsLowerWord(f.lang);
    MatchIsFenceAt(s, 0, f);
    FirstFenceIsLeftmost(s, 0, 0, f);
    assert Matches(s, |s|) == [];
  }

  /**
   * Cross-file: a wrapped reply whose code holds no three backticks splits
   * into empty prose, the code with the wrapper's line break, and empty prose.
   */
  lemma WrappedReplyParses(code: string)
    requires !Includes(code, Ticks)
    ensures Parse(WrapTsx(code)) == [Prose(""), Code("tsx", code + "\n"), Prose("")]
  {
    var s, f := WrapTsx(code), Fence("tsx", code + "\n");
    WrappedMatchesOnce(code);
    WrapIsFenceText(code);
    assert End(Found(0, f)) == |s|;
    assert s[0..0] == "" && s[|s|..] == "";
    assert SplitWith(s, 0, [Found(0, f)]) == [Prose(""), Code("tsx", code + "\n")] + SplitWith(s, |s|, []);
  }

  /** The wrapped reply is displayed as one code block holding the trimmed code between two empty paragraphs. */
  lemma WrappedReplyRenders(code: string)
    requires !Includes(code, Ticks)
    ensures RenderContent(WrapTsx(code)) == [Paragraphs([""]), CodeBlock(Trim(code)), Paragraphs([""])]
  {
    var s := WrapTsx(code);
    var parts := SplitStrings(s);
    assert parts == ["", code + "\n", ""] by {
      WrappedReplyParses(code);
    }
    assert RenderContent(s) == RenderStrings(parts);
    RenderThree(parts[0], parts[1], parts[2]);
    assert Lines("") == [""];
    TrimIgnoresTrailingWhitespace(code, '\n');
  }

  /** A refactoring or a generation that succeeds with backtick-free code is displayed as exactly that code, trimmed, in one block. */
  lemma CodeReplyRendersOneBlock(flows: Flows, message: string, attachments: seq<FileAttachment>, code: string)
    requires Route(message, attachments) in {Refactor, Generate}
    requires FlowOutcome(flows, message, attachments) == Ok(code) && !Includes(code, Ticks)
    ensures RenderContent(GetAiResponse(flows, message, attachments))
      == [Paragraphs([""]), CodeBlock(Trim(code)), Paragraphs([""])]
  {
    WrappedReplyRenders(code);
  }

  /** The stand-in `generateCode`, which never fails and echoes the prompt after a comment marker. */
  function GenerateStub(prompt: string): Result<string> {
    Ok(StubPrefix + prompt)
  }

  const StubPrefix: string := "// generated code based on prompt: "

  /** With the stand-in generator, a message without a file and without backticks comes back as one code block echoing it. */
  lemma StubReplyEchoesMessage(flows: Flows, message: string, attachments: seq<FileAttachment>)
    requires forall prompt :: flows.generate(prompt) == GenerateStub(prompt)
    requires !FirstIsFile(attachments) && !Includes(message, Ticks)
    ensures RenderContent(GetAiResponse(flows, message, attachments))
      == [Paragraphs([""]), CodeBlock(Trim(StubPrefix + message)), Paragraphs([""])]
  {
    var code := StubPrefix + message;
    IncludesAfterPrefix(StubPrefix, message, Ticks);
    assert GetAiResponse(flows, message, attachments) == WrapTsx(code);
    WrappedReplyRenders(code);
  }
}
