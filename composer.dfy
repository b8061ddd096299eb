/**
 * The message input form (src/components/chat/chat-input.tsx): the text
 * being typed, the files attached to it, the `@`-mention list of workspace
 * files with its highlighted entry, and the handlers that change them.
 * Each handler is a function from one form state to the next; the class
 * `ChatInput` holds the state in fields and its methods are those handlers.
 */
module Composer {
  import opened Wrappers
  import opened Types
  import opened Strings

  /** The component's state: `input`, `attachments`, `popoverOpen`, `fileListIndex` and `workspaceFiles`. */
  datatype Form = Form(
    input: string,
    attachments: seq<FileAttachment>,
    popoverOpen: bool,
    fileListIndex: nat,
    workspaceFiles: seq<WorkspaceFile>)

  /** What `onSendMessage` receives. */
  datatype Outgoing = Outgoing(content: string, attachments: seq<FileAttachment>)

  /** A handler's result: the next state and what was sent, if anything. */
  datatype Step = Step(next: Form, sent: Option<Outgoing>)

  /** The keys `handleKeyDown` tells apart. */
  datatype Key = ArrowDown | ArrowUp | Enter | OtherKey

  const Initial: Form := Form("", [], false, 0, [])

  /** The texts of the three quick-action buttons. */
  const QuickActions: seq<string> := ["Summarize this code.", "Refactor this code.", "Explain this code."]

  /** The `@`-mention test of `handleInputChange`: there is an `@`, and no space after the last one. */
  predicate MentionOpen(value: string) {
    var at := LastIndexOf(value, '@');
    at != -1 && ' ' !in value[at + 1..]
  }

  /** The mention test holds exactly when some `@` has no space anywhere after it. */
  lemma MentionIsUnspacedAt(value: string)
    ensures MentionOpen(value) <==> exists k :: 0 <= k < |value| && value[k] == '@' && ' ' !in value[k + 1..]
  {
    var at := LastIndexOf(value, '@');
    forall j | at + 1 <= j < |value| ensures value[j] != '@' {
      assert value[j] in value[at + 1..];
    }
    if k :| 0 <= k < |value| && value[k] == '@' && ' ' !in value[k + 1..] {
      forall j | at + 1 <= j < |value| ensures value[j] != ' ' {
        assert value[j] in value[k + 1..];
      }
    }
  }

  /** `handleInputChange`: the new text, the list shown while a mention is being typed, the highlight back at the top. */
  function InputChanged(f: Form, value: string): (r: Form)
    ensures r.input == value && r.fileListIndex == 0
    ensures r.popoverOpen <==> exists k :: 0 <= k < |value| && value[k] == '@' && ' ' !in value[k + 1..]
    ensures r.attachments == f.attachments && r.workspaceFiles == f.workspaceFiles
  {
    MentionIsUnspacedAt(value);
    f.(input := value, popoverOpen := MentionOpen(value), fileListIndex := 0)
  }

  /**
   * `handleFileSelect`: the file attached at the end, the text from the
   * last `@` on replaced by one space (the whole text when there is no
   * `@`), the list closed and the highlight back at the top.
   */
  function FileSelected(f: Form, file: WorkspaceFile): (r: Form)
    ensures r.attachments == f.attachments + [AsAttachment(file)]
    ensures !r.popoverOpen && r.fileListIndex == 0 && r.workspaceFiles == f.workspaceFiles
    ensures '@' !in f.input ==> r.input == " "
    ensures '@' in f.input ==>
      var p := |r.input| - 1;
      && 0 <= p < |f.input| && r.input == f.input[..p] + " "
      && f.input[p] == '@' && '@' !in f.input[p + 1..]
  {
    f.(attachments := f.attachments + [AsAttachment(file)],
       input := SubstringTo(f.input, LastIndexOf(f.input, '@')) + " ",
       popoverOpen := false,
       fileListIndex := 0)
  }

  /** The send guard: text that is not all whitespace, or an attachment. */
  predicate CanSend(f: Form) {
    Trim(f.input) != "" || |f.attachments| > 0
  }

  /** The guard reads as: some character is not whitespace, or something is attached. */
  lemma CanSendIff(f: Form)
    ensures CanSend(f) <==> !AllWhitespace(f.input) || |f.attachments| > 0
  {
    TrimEmptyIffAllWhitespace(f.input);
  }

  /** `handleSend`: past the guard, the text as typed and the attachments are sent and both cleared; otherwise nothing happens. */
  function SendStep(f: Form): (s: Step)
    ensures s.sent.Some? <==> CanSend(f)
    ensures s.sent.Some? ==> s.sent.value == Outgoing(f.input, f.attachments) && s.next == f.(input := "", attachments := [])
    ensures s.sent.None? ==> s.next == f
  {
    if CanSend(f) then Step(f.(input := "", attachments := []), Some(Outgoing(f.input, f.attachments)))
    else Step(f, None)
  }

  /** The send button is disabled while a message is in flight or when the guard fails. */
  predicate SendButtonDisabled(f: Form, isSending: bool) {
    isSending || (Trim(f.input) == "" && |f.attachments| == 0)
  }

  /** The button is enabled exactly when a click would send. */
  lemma SendButtonMatchesGuard(f: Form, isSending: bool)
    ensures !SendButtonDisabled(f, isSending) <==> !isSending && SendStep(f).sent.Some?
  {
  }

  /** `attachments.find(a => a.name === name)` finds something. */
  predicate Attached(attachments: seq<FileAttachment>, name: string) {
    exists i :: 0 <= i < |attachments| && attachments[i].name == name
  }

  /** The filter of `filteredFiles`: not attached yet, and the lower-cased name contains `term`. */
  predicate Listed(attachments: seq<FileAttachment>, term: string, w: WorkspaceFile) {
    !Attached(attachments, w.name) && Includes(ToLower(w.name), term)
  }

  /** `files.filter(...)`: the files that pass, in their order. */
  function Filter(files: seq<WorkspaceFile>, attachments: seq<FileAttachment>, term: string): (r: seq<WorkspaceFile>)
    ensures |r| <= |files|
    ensures forall w :: w in r <==> w in files && Listed(attachments, term, w)
    decreases |files|
  {
    if |files| == 0 then []
    else
      var rest := Filter(files[1..], attachments, term);
      assert forall w :: w in files <==> w == files[0] || w in files[1..];
      if Listed(attachments, term, files[0]) then [files[0]] + rest else rest
  }

  /** Filtering keeps the order: the filter of a concatenation is the concatenation of the filters. */
  lemma {:induction false} FilterConcat(a: seq<WorkspaceFile>, b: seq<WorkspaceFile>, attachments: seq<FileAttachment>, term: string)
    ensures Filter(a + b, attachments, term) == Filter(a, attachments, term) + Filter(b, attachments, term)
    decreases |a|
  {
    if |a| > 0 {
      assert (a + b)[0] == a[0] && (a + b)[1..] == a[1..] + b;
      FilterConcat(a[1..], b, attachments, term);
    } else {
      assert a + b == b;
    }
  }

  /** Fewer names attached list at least as many files. */
  lemma {:induction false} FilterFewerAttachments(files: seq<WorkspaceFile>, more: seq<FileAttachment>, fewer: seq<FileAttachment>, term: string)
    requires forall name :: Attached(fewer, name) ==> Attached(more, name)
    ensures |Filter(files, more, term)| <= |Filter(files, fewer, term)|
    decreases |files|
  {
    if |files| > 0 {
      FilterFewerAttachments(files[1..], more, fewer, term);
      assert Listed(more, term, files[0]) ==> Listed(fewer, term, files[0]);
    }
  }

  /** With nothing attached, an empty search term lists every file. */
  lemma {:induction false} EmptySearchListsAll(files: seq<WorkspaceFile>)
    ensures Filter(files, [], "") == files
    decreases |files|
  {
    if |files| > 0 {
      assert OccursAt(ToLower(files[0].name), "", 0);
      EmptySearchListsAll(files[1..]);
      assert files == [files[0]] + files[1..];
    }
  }

  /** A mention is being typed: the list is open and the text has an `@`. */
  predicate Searching(f: Form) {
    f.popoverOpen && '@' in f.input
  }

  /** `searchTerm`: the lower-cased text after the last `@` while searching, else empty. */
  function SearchTerm(f: Form): (r: string)
    ensures !Searching(f) ==> r == ""
    ensures Searching(f) ==> exists p :: 0 <= p < |f.input| && f.input[p] == '@' && '@' !in f.input[p + 1..] && r == ToLower(f.input[p + 1..])
  {
    if Searching(f) then ToLower(f.input[LastIndexOf(f.input, '@') + 1..]) else ""
  }

  /** `filteredFiles`. */
  function FilteredFiles(f: Form): (r: seq<WorkspaceFile>)
    ensures !Searching(f) ==> r == []
    ensures forall w :: w in r <==> Searching(f) && w in f.workspaceFiles && Listed(f.attachments, SearchTerm(f), w)
    ensures Searching(f) ==> r == Filter(f.workspaceFiles, f.attachments, SearchTerm(f))
  {
    if Searching(f) then Filter(f.workspaceFiles, f.attachments, SearchTerm(f)) else []
  }

  /** No file in the list has the name of a file already attached. */
  lemma ListedFilesAreNotAttached(f: Form, w: WorkspaceFile, a: FileAttachment)
    requires w in FilteredFiles(f) && a in f.attachments
    ensures w.name != a.name
  {
  }

  /**
   * The class invariant: while a mention is searched, the highlight is at
   * the top or on an entry of the list; so whenever the list is open and
   * not empty, the highlight is on one of its entries.
   */
  predicate IndexInRange(f: Form) {
    Searching(f) ==> f.fileListIndex == 0 || f.fileListIndex < |FilteredFiles(f)|
  }

  /** The highlight moved down one entry, round to the top: `(i + 1) % n`. */
  function Next(i: nat, n: nat): (j: nat)
    requires n > 0
    ensures j < n
    ensures i < n ==> j == if i + 1 < n then i + 1 else 0
  {
    (i + 1) % n
  }

  /** The highlight moved up one entry, round to the bottom: `(i - 1 + n) % n`, never negative here. */
  function Prev(i: nat, n: nat): (j: nat)
    requires n > 0
    ensures j < n
    ensures i < n ==> j == if i == 0 then n - 1 else i - 1
  {
    (i - 1 + n) % n
  }

  /** The list depends on the text, the attachments, the files and whether it is open; not on the highlight. */
  lemma FilteredIgnoresHighlight(f: Form, i: nat)
    ensures FilteredFiles(f.(fileListIndex := i)) == FilteredFiles(f)
    ensures Searching(f.(fileListIndex := i)) == Searching(f)
  {
    assert SearchTerm(f.(fileListIndex := i)) == SearchTerm(f);
  }

  /**
   * `handleKeyDown`: with the list open and not empty, the arrows move the
   * highlight round the list and Enter attaches the highlighted file;
   * otherwise Enter without Shift sends.
   */
  function KeyStep(f: Form, key: Key, shift: bool): (s: Step)
    requires IndexInRange(f)
    ensures IndexInRange(s.next)
    ensures s.next.workspaceFiles == f.workspaceFiles
    ensures f.popoverOpen && |FilteredFiles(f)| > 0 && key == ArrowDown ==>
      s == Step(f.(fileListIndex := Next(f.fileListIndex, |FilteredFiles(f)|)), None)
    ensures f.popoverOpen && |FilteredFiles(f)| > 0 && key == ArrowUp ==>
      s == Step(f.(fileListIndex := Prev(f.fileListIndex, |FilteredFiles(f)|)), None)
    ensures f.popoverOpen && |FilteredFiles(f)| > 0 && key == Enter ==>
      f.fileListIndex < |FilteredFiles(f)| && s == Step(FileSelected(f, FilteredFiles(f)[f.fileListIndex]), None)
    ensures key == OtherKey ==> s == Step(f, None)
    ensures !(f.popoverOpen && |FilteredFiles(f)| > 0) ==>
      s == if key == Enter && !shift then SendStep(f) else Step(f, None)
  {
    var files := FilteredFiles(f);
    var n := |files|;
    if f.popoverOpen && n > 0 then
      match key
      case ArrowDown =>
        FilteredIgnoresHighlight(f, Next(f.fileListIndex, n));
        Step(f.(fileListIndex := Next(f.fileListIndex, n)), None)
      case ArrowUp =>
        FilteredIgnoresHighlight(f, Prev(f.fileListIndex, n));
        Step(f.(fileListIndex := Prev(f.fileListIndex, n)), None)
      case Enter => Step(FileSelected(f, files[f.fileListIndex]), None)
      case OtherKey => Step(f, None)
    else if key == Enter && !shift then
      assert FilteredFiles(f.(input := "", attachments := [])) == [];
      SendStep(f)
    else Step(f, None)
  }

  /** The arrows keep the list and keep the highlight on it. */
  lemma ArrowsStayInList(f: Form, key: Key, shift: bool)
    requires IndexInRange(f) && f.popoverOpen && |FilteredFiles(f)| > 0
    requires key == ArrowDown || key == ArrowUp
    ensures var s := KeyStep(f, key, shift);
      && s.sent.None? && s.next == f.(fileListIndex := s.next.fileListIndex)
      && FilteredFiles(s.next) == FilteredFiles(f)
      && s.next.fileListIndex < |FilteredFiles(f)|
      && s.next.fileListIndex == if key == ArrowDown then Next(f.fileListIndex, |FilteredFiles(f)|) else Prev(f.fileListIndex, |FilteredFiles(f)|)
  {
    FilteredIgnoresHighlight(f, KeyStep(f, key, shift).next.fileListIndex);
  }

  /** ArrowUp undoes ArrowDown. */
  lemma ArrowUpUndoesArrowDown(f: Form, shift: bool)
    requires IndexInRange(f) && f.popoverOpen && |FilteredFiles(f)| > 0
    ensures KeyStep(KeyStep(f, ArrowDown, shift).next, ArrowUp, shift).next == f
  {
    var n := |FilteredFiles(f)|;
    var g := KeyStep(f, ArrowDown, shift).next;
    FilteredIgnoresHighlight(f, g.fileListIndex);
    assert Prev(Next(f.fileListIndex, n), n) == f.fileListIndex;
  }

  /** Enter on the open list attaches the highlighted file, which is a workspace file not attached before. */
  lemma EnterAttachesHighlighted(f: Form, shift: bool)
    requires IndexInRange(f) && f.popoverOpen && |FilteredFiles(f)| > 0
    ensures var w := FilteredFiles(f)[f.fileListIndex];
      var s := KeyStep(f, Enter, shift);
      && s.sent.None?
      && s.next == FileSelected(f, w)
      && s.next.attachments == f.attachments + [AsAttachment(w)]
      && !s.next.popoverOpen && s.next.fileListIndex == 0
      && w in f.workspaceFiles && !Attached(f.attachments, w.name)
  {
    var w := FilteredFiles(f)[f.fileListIndex];
    assert w in FilteredFiles(f);
  }

  /** Enter without Shift, with no list to pick from, is a click on the send button. */
  lemma EnterWithoutListSends(f: Form)
    requires IndexInRange(f) && !(f.popoverOpen && |FilteredFiles(f)| > 0)
    ensures KeyStep(f, Enter, false) == SendStep(f)
  {
  }

  /** `atts.filter((_, j) => j !== i)`. */
  function RemoveAt(s: seq<FileAttachment>, i: int): (r: seq<FileAttachment>)
    ensures 0 <= i < |s| ==> |r| == |s| - 1 && forall j :: 0 <= j < |r| ==> r[j] == s[if j < i then j else j + 1]
    ensures !(0 <= i < |s|) ==> r == s
    ensures forall x :: x in r ==> x in s
    decreases |s|
  {
    if |s| == 0 then []
    else
      var rest := RemoveAt(s[1..], i - 1);
      assert forall x :: x in s[1..] ==> x in s;
      if i == 0 then rest else [s[0]] + rest
  }

  /** A name attached after a removal was attached before it. */
  lemma RemoveAtKeepsNames(attachments: seq<FileAttachment>, i: int)
    ensures forall name :: Attached(RemoveAt(attachments, i), name) ==> Attached(attachments, name)
  {
    var fewer := RemoveAt(attachments, i);
    forall name | Attached(fewer, name) ensures Attached(attachments, name) {
      var j :| 0 <= j < |fewer| && fewer[j].name == name;
      assert fewer[j] in attachments;
    }
  }

  /** Removing a badge never shortens the list: a name it frees may come back into it. */
  lemma RemovingBadgeKeepsList(f: Form, i: int)
    ensures |FilteredFiles(f)| <= |FilteredFiles(f.(attachments := RemoveAt(f.attachments, i)))|
  {
    var fewer := RemoveAt(f.attachments, i);
    var g := f.(attachments := fewer);
    RemoveAtKeepsNames(f.attachments, i);
    if Searching(f) {
      assert SearchTerm(g) == SearchTerm(f);
      FilterFewerAttachments(f.workspaceFiles, f.attachments, fewer, SearchTerm(f));
    }
  }

  /** Removing the badge at `i`: that attachment goes, the others stay in order. */
  function BadgeRemoved(f: Form, i: int): (r: Form)
    requires IndexInRange(f)
    ensures IndexInRange(r)
    ensures r == f.(attachments := RemoveAt(f.attachments, i))
  {
    RemovingBadgeKeepsList(f, i);
    f.(attachments := RemoveAt(f.attachments, i))
  }

  /** A quick-action button: its text replaces the input. */
  function QuickAction(f: Form, k: nat): (r: Form)
    requires k < |QuickActions|
    ensures IndexInRange(r)
    ensures r == f.(input := QuickActions[k])
  {
    assert '@' !in QuickActions[k];
    f.(input := QuickActions[k])
  }

  /** `setWorkspaceFiles` as written: the list replaced, the highlight left where it was. */
  function FilesUpdatedAsWritten(f: Form, files: seq<WorkspaceFile>): (r: Form)
    ensures r.workspaceFiles == files && r.fileListIndex == f.fileListIndex
    ensures r.input == f.input && r.attachments == f.attachments && r.popoverOpen == f.popoverOpen
  {
    f.(workspaceFiles := files)
  }

  /** `setWorkspaceFiles` with the highlight moved back to the top, as `handleInputChange` does. */
  function FilesUpdated(f: Form, files: seq<WorkspaceFile>): (r: Form)
    ensures r.workspaceFiles == files && IndexInRange(r)
    ensures r == FilesUpdatedAsWritten(f, files).(fileListIndex := 0)
  {
    f.(workspaceFiles := files, fileListIndex := 0)
  }

  /**
   * With the highlight left in place, a smaller workspace list leaves it past
   * the end: after `@`, two ArrowDowns over three files and an update to one
   * file, Enter would read `filteredFiles[2]`, which is `undefined`.
   */
  lemma StaleHighlightAfterFilesUpdate()
    ensures var a, b, c := WorkspaceFile("a.ts", File), WorkspaceFile("b.ts", File), WorkspaceFile("c.ts", File);
      var f0 := InputChanged(FilesUpdated(Initial, [a, b, c]), "@");
      IndexInRange(f0) &&
      var f1 := KeyStep(KeyStep(f0, ArrowDown, false).next, ArrowDown, false).next;
      var f2 := FilesUpdatedAsWritten(f1, [a]);
      && f1.fileListIndex == 2
      && f2.popoverOpen && |FilteredFiles(f2)| == 1
      && !IndexInRange(f2)
  {
    var a, b, c := WorkspaceFile("a.ts", File), WorkspaceFile("b.ts", File), WorkspaceFile("c.ts", File);
    var f0 := InputChanged(FilesUpdated(Initial, [a, b, c]), "@");
    assert f0.popoverOpen by {
      assert "@"[0] == '@' && ' ' !in "@"[1..];
    }
    assert LastIndexOf("@", '@') == 0;
    assert SearchTerm(f0) == ToLower("");
    EmptySearchListsAll([a, b, c]);
    assert FilteredFiles(f0) == [a, b, c];
    var g := KeyStep(f0, ArrowDown, false).next;
    assert g == f0.(fileListIndex := 1);
    FilteredIgnoresHighlight(f0, 1);
    var f1 := KeyStep(g, ArrowDown, false).next;
    assert f1 == f0.(fileListIndex := 2);
    var f2 := FilesUpdatedAsWritten(f1, [a]);
    EmptySearchListsAll([a]);
    assert SearchTerm(f2) == ToLower("");
    assert FilteredFiles(f2) == [a];
  }

  /** The input form. */
  class ChatInput {
    var input: string
    var attachments: seq<FileAttachment>
    var popoverOpen: bool
    var fileListIndex: nat
    var workspaceFiles: seq<WorkspaceFile>

    function Snapshot(): Form
      reads this
    {
      Form(input, attachments, popoverOpen, fileListIndex, workspaceFiles)
    }

    ghost predicate Valid()
      reads this
    {
      IndexInRange(Snapshot())
    }

    constructor ()
      ensures Snapshot() == Initial
      ensures Valid()
    {
      input := "";
      attachments := [];
      popoverOpen := false;
      fileListIndex := 0;
      workspaceFiles := [];
    }

    method InputChange(value: string)
      modifies this
      ensures Snapshot() == InputChanged(old(Snapshot()), value)
      ensures Valid()
    {
      popoverOpen := MentionOpen(value);
      input, fileListIndex := value, 0;
    }

    method FileSelect(file: WorkspaceFile)
      modifies this
      ensures Snapshot() == FileSelected(old(Snapshot()), file)
      ensures Valid()
    {
      attachments, input := attachments + [AsAttachment(file)], SubstringTo(input, LastIndexOf(input, '@')) + " ";
      popoverOpen, fileListIndex := false, 0;
    }

    method Send() returns (sent: Option<Outgoing>)
      requires Valid()
      modifies this
      ensures Step(Snapshot(), sent) == SendStep(old(Snapshot()))
      ensures Valid()
    {
      if Trim(input) != "" || |attachments| > 0 {
        sent := Some(Outgoing(input, attachments));
        input := "";
        attachments := [];
        assert FilteredFiles(Snapshot()) == [];
      } else {
        sent := None;
      }
    }

    method KeyDown(key: Key, shift: bool) returns (sent: Option<Outgoing>)
      requires Valid()
      modifies this
      ensures Step(Snapshot(), sent) == KeyStep(old(Snapshot()), key, shift)
      ensures Valid()
    {
      var files := FilteredFiles(Snapshot());
      var n := |files|;
      if popoverOpen && n > 0 {
        sent := None;
        if key == ArrowDown {
          fileListIndex := Next(fileListIndex, n);
        } else if key == ArrowUp {
          fileListIndex := Prev(fileListIndex, n);
        } else if key == Enter {
          FileSelect(files[fileListIndex]);
        }
      } else if key == Enter && !shift {
        sent := Send();
      } else {
        sent := None;
      }
    }

    /** The remove button on the badge at `index`. */
    method RemoveBadge(index: int)
      requires Valid()
      modifies this
      ensures Snapshot() == BadgeRemoved(old(Snapshot()), index)
      ensures Valid()
    {
      attachments := RemoveAt(attachments, index);
      assert Snapshot() == BadgeRemoved(old(Snapshot()), index);
    }

    method QuickActionClick(k: nat)
      requires Valid() && k < |QuickActions|
      modifies this
      ensures Snapshot() == QuickAction(old(Snapshot()), k)
      ensures Valid()
    {
      input := QuickActions[k];
      assert Snapshot() == QuickAction(old(Snapshot()), k);
    }

    /** `setWorkspaceFiles`, from the initial `getWorkspaceFiles` and from `onWorkspaceFilesUpdate`. */
    method SetWorkspaceFiles(files: seq<WorkspaceFile>)
      modifies this
      ensures Snapshot() == FilesUpdated(old(Snapshot()), files)
      ensures Valid()
    {
      workspaceFiles := files;
      fileListIndex := 0;
    }
  }
}
