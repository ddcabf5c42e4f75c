/** The fold of a conversation path into a provider transcript (internal/runtime/pi_conversation.go):
    user turns append, a native delta replaces what follows its anchor, a compaction replaces a
    prefix, and /clear cuts.  The loop is proved against Run, a function of the path. */
module History {
  import opened Wrappers
  import opened Space
  import opened Transcript

  // ---------- log entries ----------

  datatype Kind =
    | Chat(role: Role, text: string, command: bool, display: bool)
    | Clear
    | LegacyCompaction
    | Compaction(base: string, revision: string, keepFrom: int, summary: string)
    | Delta(base: string, revision: string, delta: Option<seq<Message>>) // None: a null message array
    | Unreadable(payloadOf: PayloadKind)                                 // JSON that does not decode
    | Other                                                             // traces, plans, steps, goals, ...

  datatype PayloadKind = ChatPayload | DeltaPayload | CompactionPayload

  datatype Entry = Entry(id: string, kind: Kind)

  datatype FoldError =
    | LegacyCompactionEntry
    | LegacyAssistantEntry
    | InvalidDelta
    | InvalidChat
    | AnchorMissing
    | MixedRevisions
    | InvalidCheckpoint
    | SplitTurn
    | InvalidTranscript

  /** What a run is seeded with: the transcript at one branch point. */
  datatype Folded = Folded(messages: seq<Message>, revision: string, leafId: string)

  // ---------- the fold, one entry at a time ----------

  datatype Marker = Marker(count: nat, revision: string)

  datatype State = State(messages: seq<Message>, revision: string, leaf: string, markers: map<string, Marker>)

  const START := State([], "", "", map["" := Marker(0, "")])

  /** An entry that contributes one user message. */
  predicate IsInput(e: Entry) {
    e.kind.Chat? && !e.kind.command && !e.kind.display && e.kind.text != "" && e.kind.role.User?
  }

  function UserMessage(e: Entry): Message
    requires e.kind.Chat?
  {
    Message(User, e.kind.text, e.id, "", "", "", [], "")
  }

  function SummaryMessage(id: string, summary: string): Message {
    Message(User, "[Earlier conversation summary]\n" + summary, "", id, "", "", [], "")
  }

  /** Every entry becomes the leaf and an anchor for later deltas. */
  function Place(messages: seq<Message>, revision: string, markers: map<string, Marker>, id: string): State {
    State(messages, revision, id, markers[id := Marker(|messages|, revision)])
  }

  function Unconsumed(ms: seq<Message>, consumed: set<string>): seq<Message> {
    if ms == [] then []
    else (if ms[0].inputId in consumed then [] else [ms[0]]) + Unconsumed(ms[1..], consumed)
  }

  function Consumed(delta: seq<Message>): set<string> { set id | id in InputIds(delta) }

  function FoldDelta(st: State, id: string, k: Kind): Result<State, FoldError>
    requires k.Delta?
  {
    if k.revision == "" || k.delta.None? then Failure(InvalidDelta)
    else if k.base !in st.markers || st.markers[k.base].count > |st.messages| then Failure(AnchorMissing)
    else
      var base := st.markers[k.base];
      if base.revision != "" && base.revision != k.revision then Failure(MixedRevisions)
      else
        var pending := Unconsumed(st.messages[base.count..], Consumed(k.delta.value));
        Success(Place(st.messages[..base.count] + k.delta.value + pending, k.revision, map[], id))
  }

  function FoldCompaction(st: State, id: string, k: Kind): Result<seq<Message>, FoldError>
    requires k.Compaction?
  {
    if k.base != st.leaf || k.revision == "" || k.revision != st.revision || Blank(k.summary)
       || k.keepFrom <= 0 || k.keepFrom >= |st.messages| then Failure(InvalidCheckpoint)
    else if !st.messages[k.keepFrom].role.User? || !Valid(st.messages) then Failure(SplitTurn)
    else Success(SummaryView(st.messages, k.keepFrom, SummaryMessage(id, k.summary)))
  }

  function FoldChat(st: State, e: Entry): Result<State, FoldError>
    requires e.kind.Chat?
  {
    if e.kind.command || e.kind.display || e.kind.text == "" then
      Success(Place(st.messages, st.revision, st.markers, e.id))
    else if !e.kind.role.User? then Failure(LegacyAssistantEntry)
    else Success(Place(st.messages + [UserMessage(e)], st.revision, st.markers, e.id))
  }

  function Step(st: State, e: Entry): Result<State, FoldError> {
    match e.kind
    case Clear => Success(Place([], "", map[], e.id))
    case LegacyCompaction => Failure(LegacyCompactionEntry)
    case Compaction(_, _, _, _) =>
      (match FoldCompaction(st, e.id, e.kind)
       case Failure(err) => Failure(err)
       case Success(ms) => Success(Place(ms, st.revision, map[], e.id)))
    case Delta(_, _, _) => FoldDelta(st, e.id, e.kind)
    case Chat(_, _, _, _) => FoldChat(st, e)
    case Unreadable(DeltaPayload) => Failure(InvalidDelta)
    case Unreadable(ChatPayload) => Failure(InvalidChat)
    case Unreadable(CompactionPayload) => Failure(InvalidCheckpoint)
    case Other => Success(Place(st.messages, st.revision, st.markers, e.id))
  }

  /** The state after a path.  A /clear starts afresh whatever came before it, even an error. */
  function Run(path: seq<Entry>): Result<State, FoldError> {
    if path == [] then Success(START)
    else
      var e, before := path[|path| - 1], path[..|path| - 1];
      if e.kind.Clear? then Step(START, e)
      else match Run(before)
        case Failure(err) => Failure(err)
        case Success(st) => Step(st, e)
  }

  lemma RunSnoc(before: seq<Entry>, e: Entry)
    ensures Run(before + [e]) == if e.kind.Clear? then Step(START, e)
                                 else match Run(before)
                                   case Failure(err) => Failure(err)
                                   case Success(st) => Step(st, e)
  {
    assert (before + [e])[..|before|] == before;
  }

  function Fold(path: seq<Entry>): Result<Folded, FoldError> {
    match Run(path)
    case Failure(err) => Failure(err)
    case Success(st) =>
      if Valid(st.messages) then Success(Folded(st.messages, st.revision, st.leaf)) else Failure(InvalidTranscript)
  }

  // ---------- the loop ----------

  /** No /clear from position n on. */
  predicate NoClearFrom(path: seq<Entry>, n: nat) { forall k :: n <= k < |path| ==> !path[k].kind.Clear? }

  lemma {:induction false} FailureStays(path: seq<Entry>, n: nat)
    requires n <= |path| && Run(path[..n]).Failure? && NoClearFrom(path, n)
    ensures Run(path) == Run(path[..n])
    decreases |path|
  {
    if n == |path| {
      assert path[..n] == path;
    } else {
      var before := path[..|path| - 1];
      assert before[..n] == path[..n];
      FailureStays(before, n);
    }
  }

  method ConsumedInputs(delta: seq<Message>) returns (consumed: set<string>)
    ensures consumed == Consumed(delta)
  {
    consumed := {};
    for i := 0 to |delta|
      invariant consumed == Consumed(delta[..i])
    {
      assert delta[..i + 1] == delta[..i] + [delta[i]];
      InputIdsConcat(delta[..i], [delta[i]]);
      if delta[i].role.User? && delta[i].inputId != "" {
        consumed := consumed + {delta[i].inputId};
      }
    }
    assert delta[..|delta|] == delta;
  }

  lemma {:induction false} UnconsumedConcat(ms: seq<Message>, ns: seq<Message>, consumed: set<string>)
    ensures Unconsumed(ms + ns, consumed) == Unconsumed(ms, consumed) + Unconsumed(ns, consumed)
  {
    if ms == [] {
      assert ms + ns == ns;
    } else {
      assert (ms + ns)[1..] == ms[1..] + ns;
      UnconsumedConcat(ms[1..], ns, consumed);
    }
  }

  method PendingInputs(ms: seq<Message>, consumed: set<string>) returns (pending: seq<Message>)
    ensures pending == Unconsumed(ms, consumed)
  {
    pending := [];
    for i := 0 to |ms|
      invariant pending == Unconsumed(ms[..i], consumed)
    {
      assert ms[..i + 1] == ms[..i] + [ms[i]];
      UnconsumedConcat(ms[..i], [ms[i]], consumed);
      if ms[i].inputId !in consumed {
        pending := pending + [ms[i]];
      }
    }
    assert ms[..|ms|] == ms;
  }

  /** The switch of the fold loop. */
  method ApplyEntry(st: State, entry: Entry) returns (r: Result<State, FoldError>)
    ensures r == Step(st, entry)
  {
    var messages, revision, markers := st.messages, st.revision, st.markers;
    match entry.kind {
      case Clear =>
        messages, revision, markers := [], "", map[];
      case LegacyCompaction =>
        return Failure(LegacyCompactionEntry);
      case Compaction(_, _, _, _) =>
        var folded := FoldCompaction(st, entry.id, entry.kind);
        if folded.Failure? { return Failure(folded.error); }
        messages, markers := folded.value, map[];
      case Delta(base, rev, delta) =>
        if rev == "" || delta.None? { return Failure(InvalidDelta); }
        if base !in markers || markers[base].count > |messages| { return Failure(AnchorMissing); }
        var count := markers[base].count;
        if markers[base].revision != "" && markers[base].revision != rev { return Failure(MixedRevisions); }
        var consumed := ConsumedInputs(delta.value);
        var pending := PendingInputs(messages[count..], consumed);
        messages := messages[..count] + delta.value;
        messages := messages + pending;
        revision, markers := rev, map[];
      case Chat(role, text, command, display) =>
        if !(command || display || text == "") {
          if !role.User? { return Failure(LegacyAssistantEntry); }
          messages := messages + [UserMessage(entry)];
        }
      case Unreadable(payload) =>
        return Failure(match payload
                       case DeltaPayload => InvalidDelta
                       case ChatPayload => InvalidChat
                       case CompactionPayload => InvalidCheckpoint);
      case Other =>
    }
    return Success(State(messages, revision, entry.id, markers[entry.id := Marker(|messages|, revision)]));
  }

  method FoldHistory(entries: seq<Entry>) returns (r: Result<Folded, FoldError>)
    ensures r == Fold(entries)
  {
    var start := 0;
    for i := 0 to |entries|
      invariant 0 <= start <= i && (start == i ==> i == 0)
      invariant forall k :: start < k < i ==> !entries[k].kind.Clear?
      invariant start > 0 ==> entries[start].kind.Clear?
    {
      if entries[i].kind.Clear? {
        start := i;
      }
    }
    var st := START;
    for i := 0 to |entries|
      invariant i <= start ==> st == START
      invariant i == 0 || start < i ==> Run(entries[..i]) == Success(st)
    {
      if i < start { continue; }
      var before := entries[..i + 1];
      assert before[..i] == entries[..i];
      assert Run(before) == Step(st, entries[i]);
      if Run(before).Failure? {
        FailureStays(entries, i + 1);
      }
      var next := ApplyEntry(st, entries[i]);
      if next.Failure? { return Failure(next.error); }
      st := next.value;
    }
    assert entries[..|entries|] == entries;
    if !Valid(st.messages) { return Failure(InvalidTranscript); }
    return Success(Folded(st.messages, st.revision, st.leaf));
  }
}
