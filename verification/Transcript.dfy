/** Provider transcripts as the conversation log folds them (internal/runtime/pi_conversation.go).
    A message is known by what the fold and the compaction read of it; the rest of its JSON is its
    body, so equal messages stand for equal JSON.  ValidateMessages and SummaryView belong to the
    2ai host library, which is not part of this model: their definitions here are assumptions. */
module Transcript {

  datatype Role = User | Assistant | ToolResult | System

  datatype Message = Message(
    role: Role,
    body: string,
    inputId: string,      // agentrayInputId: the log entry a user message came from
    compactionId: string, // agentrayCompactionId: set on a summary
    answerId: string,     // agentrayAnswerId: the question a user message answers
    question: string,     // the question a parked tool result asks
    calls: seq<string>,   // the tool calls of an assistant message
    callId: string)       // the call a tool result answers

  // ---------- ValidateMessages ----------

  predicate Answers(results: seq<Message>, calls: seq<string>) {
    && |results| == |calls|
    && (forall k :: 0 <= k < |results| ==> results[k].role.ToolResult?)
    && multiset(CallIds(results)) == multiset(calls)
  }

  function CallIds(results: seq<Message>): seq<string> {
    seq(|results|, k requires 0 <= k < |results| => results[k].callId)
  }

  /** The length of the first turn: a message and the results of its tool calls. */
  function Head(ms: seq<Message>): nat
    requires ms != []
    ensures Head(ms) >= 1
  {
    if ms[0].role.Assistant? then |ms[0].calls| + 1 else 1
  }

  /** The first message is no stray result, and its batch of calls is answered at once. */
  predicate HeadOk(ms: seq<Message>)
    requires ms != []
  {
    && !ms[0].role.ToolResult?
    && Head(ms) <= |ms|
    && (ms[0].role.Assistant? ==> Answers(ms[1..Head(ms)], ms[0].calls))
  }

  /** Each assistant batch of tool calls is followed at once by exactly its results. */
  predicate Valid(ms: seq<Message>) {
    ms == [] || (HeadOk(ms) && Valid(ms[Head(ms)..]))
  }

  lemma {:induction false} ValidConcat(ms: seq<Message>, ns: seq<Message>)
    requires Valid(ms) && Valid(ns)
    ensures Valid(ms + ns)
  {
    if ms == [] {
      assert ms + ns == ns;
    } else {
      var n := Head(ms);
      assert (ms + ns)[1..n] == ms[1..n];
      assert (ms + ns)[n..] == ms[n..] + ns;
      ValidConcat(ms[n..], ns);
    }
  }

  /** The calls of the assistant message at i are answered at once, each once, in any order. */
  predicate AnsweredAt(ms: seq<Message>, i: nat)
    requires i < |ms|
  {
    var n := |ms[i].calls|;
    && i + n < |ms|
    && (forall k :: i < k <= i + n ==> ms[k].role == ToolResult)
    && multiset(seq(n, k requires 0 <= k < n => ms[i + 1 + k].callId)) == multiset(ms[i].calls)
  }

  /** The result at k answers a call of the assistant message at i. */
  predicate BelongsTo(ms: seq<Message>, i: int, k: nat)
    requires k < |ms|
  {
    0 <= i < k <= i + |ms[i].calls| && ms[i].role == Assistant
  }

  ghost predicate EveryCallIsAnswered(ms: seq<Message>) {
    && (forall i :: 0 <= i < |ms| && ms[i].role == Assistant ==> AnsweredAt(ms, i))
    && (forall k :: 0 <= k < |ms| && ms[k].role == ToolResult ==> exists i :: BelongsTo(ms, i, k))
  }

  /** A transcript is valid exactly when every call is answered at once and every result answers one. */
  lemma {:induction false} ValidExactlyWhen(ms: seq<Message>)
    ensures Valid(ms) <==> EveryCallIsAnswered(ms)
    decreases |ms|
  {
    if ms != [] {
      if EveryCallIsAnswered(ms) {
        HeadIsOk(ms);
      }
      if HeadOk(ms) {
        ValidExactlyWhen(ms[Head(ms)..]);
        HeadAndTail(ms);
      }
    }
  }

  lemma HeadIsOk(ms: seq<Message>)
    requires ms != [] && EveryCallIsAnswered(ms)
    ensures HeadOk(ms)
  {
    hide AnsweredAt, Answers;
    if ms[0].role == Assistant { AnsweredHead(ms); }
    assert ms[0].role == ToolResult ==> exists i :: BelongsTo(ms, i, 0);
  }

  lemma AnsweredHead(ms: seq<Message>)
    requires ms != [] && ms[0].role == Assistant && AnsweredAt(ms, 0)
    ensures Head(ms) <= |ms| && Answers(ms[1..Head(ms)], ms[0].calls)
  {
    var n := |ms[0].calls|;
    assert CallIds(ms[1..n + 1]) == seq(n, k requires 0 <= k < n => ms[0 + 1 + k].callId);
  }

  lemma HeadAndTail(ms: seq<Message>)
    requires ms != [] && HeadOk(ms)
    ensures EveryCallIsAnswered(ms) <==> EveryCallIsAnswered(ms[Head(ms)..])
  {
    hide AnsweredAt, EveryCallIsAnswered;
    HeadAnswers(ms);
    if EveryCallIsAnswered(ms) { TailAnswers(ms, Head(ms)); }
    if EveryCallIsAnswered(ms[Head(ms)..]) { WholeAnswers(ms, Head(ms)); }
  }

  lemma TailAnswers(ms: seq<Message>, n: nat)
    requires n <= |ms| && EveryCallIsAnswered(ms)
    requires n > 0 && (ms[0].role == Assistant ==> n == |ms[0].calls| + 1)
    requires forall k :: 1 <= k < n ==> ms[k].role == ToolResult
    ensures EveryCallIsAnswered(ms[n..])
  {
    hide AnsweredAt;
    var tail := ms[n..];
    forall i | 0 <= i < |tail| && tail[i].role == Assistant ensures AnsweredAt(tail, i) {
      ShiftAnswered(ms, n, i);
      assert ms[n + i] == tail[i];
    }
    forall k | 0 <= k < |tail| && tail[k].role == ToolResult ensures exists i :: BelongsTo(tail, i, k) {
      assert ms[n + k] == tail[k];
      var i :| BelongsTo(ms, i, n + k);
      assert i >= n && tail[i - n] == ms[i];
      assert BelongsTo(tail, i - n, k);
    }
  }

  lemma WholeAnswers(ms: seq<Message>, n: nat)
    requires n <= |ms| && EveryCallIsAnswered(ms[n..])
    requires n > 0 && ms[0].role != ToolResult
    requires ms[0].role == Assistant ==> n == |ms[0].calls| + 1 && AnsweredAt(ms, 0)
    requires n > 1 ==> ms[0].role == Assistant
    requires forall k :: 1 <= k < n ==> ms[k].role == ToolResult
    ensures EveryCallIsAnswered(ms)
  {
    hide AnsweredAt;
    var tail := ms[n..];
    forall i | 0 <= i < |ms| && ms[i].role == Assistant ensures AnsweredAt(ms, i) {
      if i >= n {
        assert tail[i - n] == ms[i];
        ShiftAnswered(ms, n, i - n);
      }
    }
    forall k | 0 <= k < |ms| && ms[k].role == ToolResult ensures exists i :: BelongsTo(ms, i, k) {
      if k < n {
        assert BelongsTo(ms, 0, k);
      } else {
        assert tail[k - n] == ms[k];
        var i :| BelongsTo(tail, i, k - n);
        assert tail[i] == ms[i + n];
        assert BelongsTo(ms, i + n, k);
      }
    }
  }

  lemma HeadAnswers(ms: seq<Message>)
    requires ms != [] && HeadOk(ms)
    ensures forall k :: 1 <= k < Head(ms) ==> ms[k].role == ToolResult
    ensures ms[0].role == Assistant ==> AnsweredAt(ms, 0)
    ensures Head(ms) > 1 ==> ms[0].role == Assistant && Head(ms) == |ms[0].calls| + 1
  {
    if ms[0].role.Assistant? {
      var n := |ms[0].calls|;
      forall k | 1 <= k <= n ensures ms[k].role == ToolResult { assert ms[k] == ms[1..n + 1][k - 1]; }
      assert CallIds(ms[1..n + 1]) == seq(n, k requires 0 <= k < n => ms[0 + 1 + k].callId);
    }
  }

  lemma ShiftAnswered(ms: seq<Message>, n: nat, i: nat)
    requires n <= |ms| && i < |ms| - n
    ensures AnsweredAt(ms[n..], i) <==> AnsweredAt(ms, n + i)
  {
    var tail, c := ms[n..], |ms[n + i].calls|;
    assert tail[i] == ms[n + i];
    if n + i + c < |ms| {
      assert seq(c, k requires 0 <= k < c => tail[i + 1 + k].callId) == seq(c, k requires 0 <= k < c => ms[n + i + 1 + k].callId);
      assert forall k :: i < k <= i + c ==> tail[k] == ms[n + k];
      assert forall k :: n + i < k <= n + i + c ==> ms[k] == tail[k - n];
    }
  }

  predicate AllUsers(ms: seq<Message>) { forall k :: 0 <= k < |ms| ==> ms[k].role.User? }

  lemma {:induction false} UsersAreValid(ms: seq<Message>)
    requires forall k :: 0 <= k < |ms| ==> ms[k].role.User? || ms[k].role.System?
    ensures Valid(ms)
  {
    if ms != [] {
      UsersAreValid(ms[1..]);
    }
  }

  /** A user message is never inside a tool batch, so what follows it is valid on its own. */
  lemma {:induction false} ValidFromUser(ms: seq<Message>, cut: nat)
    requires Valid(ms) && cut < |ms| && ms[cut].role.User?
    ensures Valid(ms[cut..])
    decreases |ms|
  {
    if cut == 0 {
      assert ms[0..] == ms;
    } else {
      var n := Head(ms);
      forall k | 1 <= k < n ensures ms[k].role.ToolResult? {
        assert ms[k] == ms[1..n][k - 1];
      }
      assert ms[n..][cut - n..] == ms[cut..];
      ValidFromUser(ms[n..], cut - n);
    }
  }

  /** User messages at the end answer nothing, so what stands before them is valid without them. */
  lemma {:induction false} ValidBeforeUsers(ms: seq<Message>, us: seq<Message>)
    requires Valid(ms + us) && AllUsers(us)
    ensures Valid(ms)
    decreases |ms|
  {
    if ms != [] {
      var n := Head(ms);
      var all := ms + us;
      forall k | 1 <= k < n ensures all[k].role.ToolResult? {
        assert all[k] == all[1..n][k - 1];
      }
      assert us != [] ==> all[|ms|] == us[0];
      assert all[1..n] == ms[1..n];
      assert all[n..] == ms[n..] + us;
      ValidBeforeUsers(ms[n..], us);
    }
  }

  // ---------- SummaryView ----------

  function Systems(ms: seq<Message>): seq<Message> {
    if ms == [] then []
    else (if ms[0].role.System? then [ms[0]] else []) + Systems(ms[1..])
  }

  /** The system messages of the prefix, the summary in place of the rest of it, and the tail. */
  function SummaryView(ms: seq<Message>, keepFrom: nat, summary: Message): seq<Message>
    requires keepFrom <= |ms|
  {
    Systems(ms[..keepFrom]) + [summary] + ms[keepFrom..]
  }

  lemma {:induction false} SystemsAreSystems(ms: seq<Message>)
    ensures forall k :: 0 <= k < |Systems(ms)| ==> Systems(ms)[k].role.System? && Systems(ms)[k] in ms
  {
    if ms != [] {
      SystemsAreSystems(ms[1..]);
    }
  }

  lemma SummaryViewIsValid(ms: seq<Message>, keepFrom: nat, summary: Message)
    requires Valid(ms) && keepFrom < |ms| && ms[keepFrom].role.User? && summary.role.User?
    ensures Valid(SummaryView(ms, keepFrom, summary))
  {
    SystemsAreSystems(ms[..keepFrom]);
    UsersAreValid(Systems(ms[..keepFrom]) + [summary]);
    ValidFromUser(ms, keepFrom);
    ValidConcat(Systems(ms[..keepFrom]) + [summary], ms[keepFrom..]);
  }

  // ---------- input ids ----------

  /** The input ids of the user messages, in order. */
  function InputIds(ms: seq<Message>): seq<string> {
    if ms == [] then []
    else (if ms[0].role.User? && ms[0].inputId != "" then [ms[0].inputId] else []) + InputIds(ms[1..])
  }

  lemma {:induction false} InputIdsConcat(ms: seq<Message>, ns: seq<Message>)
    ensures InputIds(ms + ns) == InputIds(ms) + InputIds(ns)
  {
    if ms == [] {
      assert ms + ns == ns;
    } else {
      assert (ms + ns)[1..] == ms[1..] + ns;
      InputIdsConcat(ms[1..], ns);
    }
  }
}
