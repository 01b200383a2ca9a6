/** The flags the chat view derives from its message list (src/components/chat-bot.tsx):
    loading, a pending tool call, the thinking spacer, the space class of the last
    message, the new-thread test and title input of `onFinish`, and the in-place fix
    of a message's tool invocations. */
module ChatBot {
  import opened Wrappers
  import opened Strings
  import opened Seqs
  import SidebarThreads

  /** The chat hook's request status. */
  datatype Status = Submitted | Streaming | Ready | Failure

  datatype Role = System | User | Assistant | Data

  datatype InvocationState = PartialCall | Call | Result

  datatype ToolInvocation = ToolInvocation(toolCallId: string, toolName: string, state: InvocationState)

  /** A message part; the kinds the view does not look into are `OtherPart`. */
  datatype Part = Text(text: string) | ToolPart(invocation: ToolInvocation) | StepStart | OtherPart

  datatype Message = Message(id: string, role: Role, parts: seq<Part>)

  function RoleName(r: Role): string {
    match r
    case System => "system"
    case User => "user"
    case Assistant => "assistant"
    case Data => "data"
  }

  /** `s.at(-1)`. */
  function Last<T>(s: seq<T>): (r: Option<T>)
    ensures r.None? <==> s == []
    ensures r.Some? ==> r.value == s[|s| - 1]
  {
    if s == [] then None else Some(s[|s| - 1])
  }

  // ---------------------------------------------------------------- flags

  /** `isLoading`. */
  predicate IsLoading(status: Status) {
    status == Streaming || status == Submitted
  }

  /** The part is a tool invocation that has no result yet. */
  predicate IsOpenToolPart(p: Option<Part>) {
    p.Some? && p.value.ToolPart? && p.value.invocation.state != Result
  }

  /** `isPendingToolCall`: the early returns of the hook, in order. */
  function IsPendingToolCall(status: Status, messages: seq<Message>): (r: bool)
    ensures r <==> status == Ready && messages != [] && messages[|messages| - 1].role == Assistant
                   && IsOpenToolPart(Last(messages[|messages| - 1].parts))
  {
    if status != Ready then false
    else
      match Last(messages)
      case None => false
      case Some(lastMessage) =>
        if lastMessage.role != Assistant then false
        else
          match Last(lastMessage.parts)
          case None => false
          case Some(lastPart) =>
            if !lastPart.ToolPart? then false
            else lastPart.invocation.state != Result
  }

  /** A tool call waits only while nothing is streaming. */
  lemma LoadingIsNotPending(status: Status, messages: seq<Message>)
    requires IsLoading(status)
    ensures !IsPendingToolCall(status, messages)
  {
  }

  /** The spacer below the messages: none (`false`), "think" or "space". */
  datatype Spacer = NoSpacer | Think | Space

  /** The last part is a step start. */
  predicate EndsWithStepStart(m: Message) {
    Last(m.parts) == Some(StepStart)
  }

  /** `space`. */
  function SpacerOf(status: Status, messages: seq<Message>): (r: Spacer)
    ensures !IsLoading(status) ==> r == NoSpacer
    ensures IsLoading(status) && messages != [] && messages[|messages| - 1].role == User ==> r == Think
    ensures r != NoSpacer ==> IsLoading(status) && messages != []
    ensures IsLoading(status) && messages != [] && messages[|messages| - 1].role != User ==>
              r == (if !EndsWithStepStart(messages[|messages| - 1]) then NoSpacer
                    else if |messages[|messages| - 1].parts| == 1 then Think
                    else Space)
  {
    if !IsLoading(status) then NoSpacer
    else
      match Last(messages)
      case None => NoSpacer
      case Some(lastMessage) =>
        if lastMessage.role == User then Think
        else if Last(lastMessage.parts) == Some(StepStart) then
          if |lastMessage.parts| == 1 then Think else Space
        else NoSpacer
  }

  /** `isInitialThreadEntry`: the view still shows the last message it opened with. */
  predicate IsInitialThreadEntry(initial: seq<Message>, messages: seq<Message>) {
    initial != [] && messages != [] && initial[|initial| - 1].id == messages[|messages| - 1].id
  }

  /** `needSpaceClass(index)`, for the index of a shown message. */
  function NeedSpaceClass(hasError: bool, initial: seq<Message>, messages: seq<Message>, index: int): (r: bool)
    requires 0 <= index < |messages|
    ensures r <==> !hasError && !IsInitialThreadEntry(initial, messages) && index == |messages| - 1
                   && messages[index].role != User && !EndsWithStepStart(messages[index])
  {
    if hasError || IsInitialThreadEntry(initial, messages) || index != |messages| - 1 then false
    else
      var message := messages[index];
      if message.role == User then false
      else if Last(message.parts) == Some(StepStart) then false
      else true
  }

  /** The spacer and the space class never both apply: while a spacer shows, no
      message asks for the space class. */
  lemma SpacerExcludesSpaceClass(status: Status, hasError: bool, initial: seq<Message>, messages: seq<Message>)
    requires SpacerOf(status, messages) != NoSpacer
    ensures forall i :: 0 <= i < |messages| ==> !NeedSpaceClass(hasError, initial, messages, i)
  {
    var m := messages[|messages| - 1];
    if m.role != User {
      assert EndsWithStepStart(m);
    }
  }

  // ---------------------------------------------------------------- onFinish

  predicate IsConversational(m: Message) {
    m.role == User || m.role == Assistant
  }

  /** `isNewThread`: the thread has no title yet and fewer than three user or
      assistant messages. */
  predicate IsNewThread(threads: seq<SidebarThreads.Thread>, threadId: string, messages: seq<Message>) {
    var prev := SidebarThreads.FirstWithId(threads, threadId);
    (prev.None? || prev.value.title == "") && Count(messages, IsConversational) < 3
  }

  const TITLE_TEXT_LIMIT: nat := 500

  /** `truncateString(s, n)`, taken to cut the text after `n` characters. */
  function Truncate(s: string, n: nat): (r: string)
    ensures |r| <= n && |r| <= |s| && r == s[..|r|]
    ensures |s| <= n ==> r == s
  {
    if |s| <= n then s else s[..n]
  }

  /** The texts of a message's text parts, in order. */
  function Texts(parts: seq<Part>): (r: seq<string>)
    ensures |r| <= |parts|
    decreases |parts|
  {
    if parts == [] then []
    else (if parts[0].Text? then [parts[0].text] else []) + Texts(parts[1..])
  }

  /** One title line per text part: the role, a colon and the cut text. */
  function Lines(m: Message): (r: seq<string>)
    ensures |r| == |Texts(m.parts)|
    ensures forall k :: 0 <= k < |r| ==> r[k] == RoleName(m.role) + ": " + Truncate(Texts(m.parts)[k], TITLE_TEXT_LIMIT)
  {
    var ts := Texts(m.parts);
    seq(|ts|, k requires 0 <= k < |ts| => RoleName(m.role) + ": " + Truncate(ts[k], TITLE_TEXT_LIMIT))
  }

  function FlatLines(ms: seq<Message>): seq<string>
    decreases |ms|
  {
    if ms == [] then [] else Lines(ms[0]) + FlatLines(ms[1..])
  }

  /** `part`: the title lines of the first two messages. */
  function TitleParts(messages: seq<Message>): seq<string> {
    FlatLines(if |messages| <= 2 then messages else messages[..2])
  }

  /** The text `generateTitle` receives, or `None` when it is not called. */
  function TitleInput(threads: seq<SidebarThreads.Thread>, threadId: string, messages: seq<Message>): Option<string> {
    if IsNewThread(threads, threadId, messages) && TitleParts(messages) != [] then
      Some(Join(TitleParts(messages), "\n\n"))
    else None
  }

  lemma {:induction false} FlatLinesSize(ms: seq<Message>)
    ensures FlatLines(ms) == [] <==> forall k :: 0 <= k < |ms| ==> Texts(ms[k].parts) == []
    decreases |ms|
  {
    if ms != [] {
      FlatLinesSize(ms[1..]);
      assert forall k :: 0 <= k < |ms[1..]| ==> ms[1..][k] == ms[k + 1];
    }
  }

  /** A title is asked for exactly when the thread is new and one of its first two
      messages has a text part. */
  lemma TitleInputWhen(threads: seq<SidebarThreads.Thread>, threadId: string, messages: seq<Message>)
    ensures TitleInput(threads, threadId, messages).Some? <==>
              IsNewThread(threads, threadId, messages) &&
              exists k :: 0 <= k < |messages| && k < 2 && Texts(messages[k].parts) != []
  {
    var first := if |messages| <= 2 then messages else messages[..2];
    FlatLinesSize(first);
    assert forall k :: 0 <= k < |first| ==> first[k] == messages[k];
  }

  /** A thread that already has a title never asks for one. */
  lemma TitledThreadKeepsTitle(threads: seq<SidebarThreads.Thread>, threadId: string, messages: seq<Message>)
    requires SidebarThreads.FirstWithId(threads, threadId).Some?
    requires SidebarThreads.FirstWithId(threads, threadId).value.title != ""
    ensures TitleInput(threads, threadId, messages).None?
  {
  }

  /** Messages after the first two do not change the title lines. */
  lemma TitleIgnoresLater(messages: seq<Message>, later: seq<Message>)
    requires |messages| >= 2
    ensures TitleParts(messages + later) == TitleParts(messages)
  {
    if later == [] {
      assert messages + later == messages;
    } else {
      assert (messages + later)[..2] == messages[..2];
      if |messages| == 2 {
        assert messages[..2] == messages;
      }
    }
  }

  /** `line` is the title line of some text part of some message of `ms`. */
  ghost predicate LineOf(ms: seq<Message>, line: string) {
    exists m, t :: m in ms && t in Texts(m.parts) && line == RoleName(m.role) + ": " + Truncate(t, TITLE_TEXT_LIMIT)
  }

  lemma LineOfAt(ms: seq<Message>, m: Message, t: string, line: string)
    requires m in ms && t in Texts(m.parts)
    requires line == RoleName(m.role) + ": " + Truncate(t, TITLE_TEXT_LIMIT)
    ensures LineOf(ms, line)
  {
  }

  /** Every title line is a role name, a colon and at most 500 characters of the
      text of one of the messages' text parts. */
  lemma {:induction false} FlatLinesShape(ms: seq<Message>)
    ensures forall j :: 0 <= j < |FlatLines(ms)| ==> LineOf(ms, FlatLines(ms)[j])
    decreases |ms|
  {
    if ms != [] {
      FlatLinesShape(ms[1..]);
      var a, b := Lines(ms[0]), FlatLines(ms[1..]);
      forall j | 0 <= j < |a + b| ensures LineOf(ms, (a + b)[j]) {
        if j < |a| {
          assert (a + b)[j] == a[j];
          LineOfHead(ms, j);
        } else {
          assert (a + b)[j] == b[j - |a|];
          LineOfTail(ms, b[j - |a|]);
        }
      }
    }
  }

  /** The title lines of the first message are title lines of the list. */
  lemma LineOfHead(ms: seq<Message>, j: int)
    requires ms != [] && 0 <= j < |Lines(ms[0])|
    ensures LineOf(ms, Lines(ms[0])[j])
  {
    LineOfAt(ms, ms[0], Texts(ms[0].parts)[j], Lines(ms[0])[j]);
  }

  /** A title line of the later messages is a title line of the list. */
  lemma LineOfTail(ms: seq<Message>, line: string)
    requires ms != [] && LineOf(ms[1..], line)
    ensures LineOf(ms, line)
  {
    var m, t :| m in ms[1..] && t in Texts(m.parts) && line == RoleName(m.role) + ": " + Truncate(t, TITLE_TEXT_LIMIT);
    assert m in ms;
    LineOfAt(ms, m, t, line);
  }

  /** A title line is at most a role name, a colon, a space and the text limit long. */
  lemma LineOfBound(ms: seq<Message>, line: string)
    requires LineOf(ms, line)
    ensures |line| <= |"assistant: "| + TITLE_TEXT_LIMIT
  {
    var m, t :| m in ms && t in Texts(m.parts) && line == RoleName(m.role) + ": " + Truncate(t, TITLE_TEXT_LIMIT);
    assert |RoleName(m.role)| <= 9;
  }

  /** The title lines of the first two messages obey the same shape. The bound of 511
      characters (the longest role label, `"assistant: "`, and 500 characters of text)
      holds under the model's `Truncate`, a plain cut to at most 500 characters; a
      `truncateString` that appends a marker after the cut would raise it. */
  lemma TitlePartsShape(messages: seq<Message>)
    ensures forall j :: 0 <= j < |TitleParts(messages)| ==>
              |TitleParts(messages)[j]| <= |"assistant: "| + TITLE_TEXT_LIMIT &&
              LineOf(if |messages| <= 2 then messages else messages[..2], TitleParts(messages)[j])
  {
    var first := if |messages| <= 2 then messages else messages[..2];
    var lines := FlatLines(first);
    FlatLinesShape(first);
    forall j | 0 <= j < |lines| ensures |lines[j]| <= |"assistant: "| + TITLE_TEXT_LIMIT {
      LineOfBound(first, lines[j]);
    }
  }

  // ---------------------------------------------------------------- catcher

  /** The tool invocations after the fix: an assistant message whose last part is a
      tool invocation and that lists no invocations gets exactly that one. */
  function FixedInvocations(role: Role, parts: seq<Part>, invocations: Option<seq<ToolInvocation>>): (r: Option<seq<ToolInvocation>>)
    ensures r != invocations <==> role == Assistant && Last(parts).Some? && Last(parts).value.ToolPart? && invocations.None?
    ensures r != invocations ==> r == Some([parts[|parts| - 1].invocation])
  {
    if role == Assistant && Last(parts).Some? && Last(parts).value.ToolPart? && invocations.None? then
      Some([parts[|parts| - 1].invocation])
    else invocations
  }

  /** A message object whose `toolInvocations` the fix writes in place. */
  class UIMessage {
    const role: Role
    const parts: seq<Part>
    var toolInvocations: Option<seq<ToolInvocation>>

    constructor (role: Role, parts: seq<Part>, toolInvocations: Option<seq<ToolInvocation>>)
      ensures this.role == role && this.parts == parts && this.toolInvocations == toolInvocations
    {
      this.role := role;
      this.parts := parts;
      this.toolInvocations := toolInvocations;
    }

    /** `vercelAISdkV4ToolInvocationIssueCatcher(message)`. */
    method CatchToolInvocationIssue()
      modifies this
      ensures toolInvocations == FixedInvocations(role, parts, old(toolInvocations))
    {
      if role != Assistant {
        return;
      }
      var lastPart := Last(parts);
      if !(lastPart.Some? && lastPart.value.ToolPart?) {
        return;
      }
      if toolInvocations.None? {
        toolInvocations := Some([lastPart.value.invocation]);
      }
    }
  }

  /** The fix is idempotent: once applied, applying it again changes nothing. */
  lemma FixIdempotent(role: Role, parts: seq<Part>, invocations: Option<seq<ToolInvocation>>)
    ensures FixedInvocations(role, parts, FixedInvocations(role, parts, invocations)) == FixedInvocations(role, parts, invocations)
  {
  }
}
