/** What folding one more entry gives, spelled out against the transcript before it: the messages a
    turn, a checkpoint and a native delta leave, and each refusal. */
module FoldOutcomes {
  import opened Wrappers
  import opened Space
  import opened Transcript
  import opened History
  import opened Anchors
  import opened Commit

  /** A turn a person typed. */
  predicate Typed(k: Kind) { k.Chat? && k.role.User? && k.text != "" && !k.command && !k.display }

  // ---------- entries that append or leave the transcript ----------

  /** A typed turn appends its text under its id; commands, display projections, empty texts and the
      entries the fold does not read append nothing; all else is refused. */
  lemma EntryOutcome(path: seq<Entry>, e: Entry)
    requires Fold(path).Success?
    ensures var (h, r) := (Fold(path).value, Fold(path + [e]));
            match e.kind
            case Chat(role, text, command, display) =>
              if command || display || text == "" then r == Success(Folded(h.messages, h.revision, e.id))
              else if role != User then r == Failure(LegacyAssistantEntry)
              else r == Success(Folded(h.messages + [Message(User, text, e.id, "", "", "", [], "")], h.revision, e.id))
            case Other => r == Success(Folded(h.messages, h.revision, e.id))
            case LegacyCompaction => r == Failure(LegacyCompactionEntry)
            case Unreadable(ChatPayload) => r == Failure(InvalidChat)
            case Unreadable(DeltaPayload) => r == Failure(InvalidDelta)
            case Unreadable(CompactionPayload) => r == Failure(InvalidCheckpoint)
            case _ => true
  {
    RunSnoc(path, e);
    FoldIsRun(path);
    if Typed(e.kind) {
      UsersAreValid([UserMessage(e)]);
      ValidConcat(Run(path).value.messages, [UserMessage(e)]);
    }
  }

  /** Whatever came before, a path that does not fold included. */
  lemma ClearOutcome(path: seq<Entry>, id: string)
    ensures Fold(path + [Entry(id, Clear)]) == Success(Folded([], "", id))
  {
    RunSnoc(path, Entry(id, Clear));
  }

  // ---------- a checkpoint ----------

  predicate Increasing(at: seq<nat>) { forall i, j :: 0 <= i < j < |at| ==> at[i] < at[j] }

  /** out is the system messages of ms in their order. */
  ghost predicate PicksSystems(ms: seq<Message>, out: seq<Message>) {
    exists at: seq<nat> :: Increasing(at) && SystemsAt(ms, out, at)
  }

  ghost predicate SystemsAt(ms: seq<Message>, out: seq<Message>, at: seq<nat>) {
    && |at| == |out|
    && (forall k :: 0 <= k < |at| ==> at[k] < |ms| && out[k] == ms[at[k]] && ms[at[k]].role == System)
    && (forall i :: 0 <= i < |ms| && ms[i].role == System ==> i in at)
  }

  lemma {:induction false} SystemsSnoc(ms: seq<Message>, m: Message)
    ensures Systems(ms + [m]) == Systems(ms) + if m.role.System? then [m] else []
  {
    if ms == [] {
      assert ms + [m] == [m] && [m][1..] == [];
    } else {
      assert (ms + [m])[1..] == ms[1..] + [m];
      SystemsSnoc(ms[1..], m);
    }
  }

  lemma {:induction false} SystemsArePicked(ms: seq<Message>)
    ensures PicksSystems(ms, Systems(ms))
    decreases |ms|
  {
    hide SystemsAt, Increasing;
    if ms == [] {
      NoSystems(ms);
    } else {
      var last := |ms| - 1;
      SystemsArePicked(ms[..last]);
      assert ms == ms[..last] + [ms[last]];
      SystemsSnoc(ms[..last], ms[last]);
      var at: seq<nat> :| Increasing(at) && SystemsAt(ms[..last], Systems(ms[..last]), at);
      LastSystem(ms, Systems(ms[..last]), at);
      assert Systems(ms[..last]) + [] == Systems(ms[..last]);
    }
  }

  lemma NoSystems(ms: seq<Message>)
    requires ms == []
    ensures PicksSystems(ms, Systems(ms))
  {
    assert Increasing([]) && SystemsAt(ms, Systems(ms), []);
  }

  lemma LastSystem(ms: seq<Message>, was: seq<Message>, at: seq<nat>)
    requires ms != [] && Increasing(at) && SystemsAt(ms[..|ms| - 1], was, at)
    ensures ms[|ms| - 1].role.System? ==> PicksSystems(ms, was + [ms[|ms| - 1]])
    ensures !ms[|ms| - 1].role.System? ==> PicksSystems(ms, was)
  {
    var last := |ms| - 1;
    assert forall i :: 0 <= i < last ==> ms[..last][i] == ms[i];
    if ms[last].role.System? {
      assert forall i :: i in at ==> i in at + [last];
      assert (at + [last])[|at|] == last;
      assert Increasing(at + [last]);
      assert SystemsAt(ms, was + [ms[last]], at + [last]);
    } else {
      assert SystemsAt(ms, was, at);
    }
  }

  /** after is before with everything in front of keepFrom but the system messages summarised. */
  ghost predicate Summarises(before: Folded, keepFrom: int, id: string, summary: string, after: Folded) {
    && 0 < keepFrom < |before.messages|
    && exists systems ::
         && PicksSystems(before.messages[..keepFrom], systems)
         && after == Folded(systems + [Message(User, "[Earlier conversation summary]\n" + summary, "", id, "", "", [], "")]
                            + before.messages[keepFrom..], before.revision, id)
  }

  /** A checkpoint folds exactly when it was written for this leaf and revision, says something and
      cuts at a user message; the summary then stands between the system messages and the tail. */
  lemma CheckpointOutcome(path: seq<Entry>, id: string, base: string, revision: string, keepFrom: int, summary: string)
    requires Fold(path).Success?
    ensures var (h, r) := (Fold(path).value, Fold(path + [Entry(id, Compaction(base, revision, keepFrom, summary))]));
            && (r.Success? <==> base == h.leafId && revision != "" && revision == h.revision && !Blank(summary)
                                && 0 < keepFrom < |h.messages| && h.messages[keepFrom].role == User)
            && (r.Success? ==> Summarises(h, keepFrom, id, summary, r.value))
  {
    hide Run, Valid, PicksSystems, Blank, Systems;
    RunSnoc(path, Entry(id, Compaction(base, revision, keepFrom, summary)));
    FoldIsRun(path);
    var h := Fold(path).value;
    if 0 < keepFrom < |h.messages| && h.messages[keepFrom].role.User? {
      SystemsArePicked(h.messages[..keepFrom]);
      SummaryViewIsValid(h.messages, keepFrom, SummaryMessage(id, summary));
    }
  }

  // ---------- a native delta ----------

  /** A user message of ms carries this input id. */
  ghost predicate Takes(ms: seq<Message>, id: string) {
    exists k :: 0 <= k < |ms| && ms[k].role == User && ms[k].inputId == id
  }

  /** out is, in order and with their texts, the turns typed after the first n entries that delta
      does not take. */
  ghost predicate LaterInputs(path: seq<Entry>, n: nat, delta: seq<Message>, out: seq<Message>) {
    exists at: seq<nat> :: Increasing(at) && InputsAt(path, n, delta, out, at)
  }

  ghost predicate InputsAt(path: seq<Entry>, n: nat, delta: seq<Message>, out: seq<Message>, at: seq<nat>) {
    && |at| == |out|
    && (forall k :: 0 <= k < |at| ==>
          && n <= at[k] < |path| && Typed(path[at[k]].kind) && !Takes(delta, path[at[k]].id)
          && out[k] == Message(User, path[at[k]].kind.text, path[at[k]].id, "", "", "", [], ""))
    && (forall i :: n <= i < |path| && Typed(path[i].kind) && !Takes(delta, path[i].id) ==> i in at)
  }

  lemma {:induction false} TakesIsConsumed(ms: seq<Message>, id: string)
    requires id != ""
    ensures id in Consumed(ms) <==> Takes(ms, id)
  {
    if ms != [] {
      TakesIsConsumed(ms[1..], id);
      if Takes(ms, id) && !(ms[0].role == User && ms[0].inputId == id) {
        var k :| 0 <= k < |ms| && ms[k].role == User && ms[k].inputId == id;
        assert ms[1..][k - 1] == ms[k];
      }
      if Takes(ms[1..], id) {
        var k :| 0 <= k < |ms[1..]| && ms[1..][k].role == User && ms[1..][k].inputId == id;
        assert ms[k + 1] == ms[1..][k];
      }
    }
  }

  lemma {:induction false} UnconsumedIsLater(path: seq<Entry>, n: nat, delta: seq<Message>)
    requires DistinctIds(path) && n <= |path|
    ensures LaterInputs(path, n, delta, Unconsumed(InputsFrom(path, n), Consumed(delta)))
    decreases |path|
  {
    hide Typed, Takes, InputsAt, Increasing;
    if n == |path| {
      NothingLater(path, delta);
    } else {
      var before := path[..|path| - 1];
      UnconsumedIsLater(before, n, delta);
      LastUnconsumed(path, n, delta);
      var was := Unconsumed(InputsFrom(before, n), Consumed(delta));
      var at: seq<nat> :| Increasing(at) && InputsAt(before, n, delta, was, at);
      LastInput(path, n, delta, was, at);
    }
  }

  lemma NothingLater(path: seq<Entry>, delta: seq<Message>)
    ensures LaterInputs(path, |path|, delta, [])
  {
    assert Increasing([]) && InputsAt(path, |path|, delta, [], []);
  }

  lemma LastUnconsumed(path: seq<Entry>, n: nat, delta: seq<Message>)
    requires n < |path| && path[|path| - 1].id != ""
    ensures var (e, consumed) := (path[|path| - 1], Consumed(delta));
            var was := Unconsumed(InputsFrom(path[..|path| - 1], n), consumed);
            Unconsumed(InputsFrom(path, n), consumed) ==
            if Typed(e.kind) && !Takes(delta, e.id) then was + [Message(User, e.kind.text, e.id, "", "", "", [], "")] else was
  {
    hide Takes, Consumed;
    var e, before := path[|path| - 1], path[..|path| - 1];
    var own := if IsInput(e) then [UserMessage(e)] else [];
    UnconsumedConcat(InputsFrom(before, n), own, Consumed(delta));
    TakesIsConsumed(delta, e.id);
  }

  lemma LastInput(path: seq<Entry>, n: nat, delta: seq<Message>, was: seq<Message>, at: seq<nat>)
    requires n < |path| && Increasing(at) && InputsAt(path[..|path| - 1], n, delta, was, at)
    ensures var e := path[|path| - 1];
            && (Typed(e.kind) && !Takes(delta, e.id) ==>
                  LaterInputs(path, n, delta, was + [Message(User, e.kind.text, e.id, "", "", "", [], "")]))
            && (!Typed(e.kind) || Takes(delta, e.id) ==> LaterInputs(path, n, delta, was))
  {
    hide Takes;
    var last := |path| - 1;
    var e := path[last];
    assert forall i :: 0 <= i < last ==> path[..last][i] == path[i];
    if Typed(e.kind) && !Takes(delta, e.id) {
      var m := Message(User, e.kind.text, e.id, "", "", "", [], "");
      assert forall i :: i in at ==> i in at + [last];
      assert (at + [last])[|at|] == last;
      assert Increasing(at + [last]) && InputsAt(path, n, delta, was + [m], at + [last]);
    } else {
      assert InputsAt(path, n, delta, was, at);
    }
  }

  /** A transcript is only handed out when it is valid. */
  function Checked(h: Folded): Result<Folded, FoldError> {
    if Valid(h.messages) then Success(h) else Failure(InvalidTranscript)
  }

  /** A delta over the branch point after n entries leaves the transcript of that point, itself, and
      the turns typed since that it does not take. */
  lemma DeltaOutcome(path: seq<Entry>, n: nat, id: string, revision: string, delta: seq<Message>)
    requires DistinctIds(path) && Fold(path).Success? && n <= |path| && QuietFrom(path, n)
    requires revision != ""
    ensures var (h, r) := (Fold(path).value, Fold(path + [Entry(id, Delta(IdAt(path, n), revision, Some(delta)))]));
            if h.revision != "" && h.revision != revision then r == Failure(MixedRevisions)
            else
              Fold(path[..n]).Success?
              && (exists later ::
                    LaterInputs(path, n, delta, later)
                    && r == Checked(Folded(Fold(path[..n]).value.messages + delta + later, revision, id)))
  {
    hide Run, Valid, LaterInputs, Unconsumed, InputsFrom, AnchoredAt, AnchorSound;
    var e := Entry(id, Delta(IdAt(path, n), revision, Some(delta)));
    FoldIsRun(path);
    if Fold(path).value.revision == "" || Fold(path).value.revision == revision {
      DeltaReplacesSuffix(path, n, e);
      UnconsumedIsLater(path, n, delta);
      PrefixFolds(path, n);
    } else {
      DeltaMixes(path, n, e);
    }
  }

  lemma PrefixFolds(path: seq<Entry>, n: nat)
    requires DistinctIds(path) && Fold(path).Success? && n <= |path| && QuietFrom(path, n)
    ensures Run(path[..n]).Success? && Fold(path[..n]).Success?
    ensures Fold(path[..n]).value.messages == Run(path[..n]).value.messages
  {
    hide Run;
    FoldIsRun(path);
    AnchorsArePrefixes(path);
    assert AnchoredAt(path, Run(path).value, n);
    InputsAreUsers(path, n);
    ValidBeforeUsers(Run(path[..n]).value.messages, InputsFrom(path, n));
  }

  lemma DeltaMixes(path: seq<Entry>, n: nat, e: Entry)
    requires DistinctIds(path) && Run(path).Success? && n <= |path| && QuietFrom(path, n)
    requires e.kind.Delta? && e.kind.base == IdAt(path, n) && e.kind.delta.Some? && e.kind.revision != ""
    requires Run(path).value.revision != "" && Run(path).value.revision != e.kind.revision
    ensures Run(path + [e]) == Failure(MixedRevisions)
  {
    hide Run, Step, InputsFrom, QuietFrom;
    var st := Run(path).value;
    RunSnoc(path, e);
    AnchorsArePrefixes(path);
    assert AnchoredAt(path, st, n);
    StepMixes(st, e);
  }

  lemma StepMixes(st: State, e: Entry)
    requires e.kind.Delta? && e.kind.delta.Some? && e.kind.revision != "" && e.kind.base in st.markers
    requires st.markers[e.kind.base].count <= |st.messages|
    requires st.markers[e.kind.base].revision != "" && st.markers[e.kind.base].revision != e.kind.revision
    ensures Step(st, e) == Failure(MixedRevisions)
  {
  }

  /** No revision, no messages, or no branch point that is followed by quiet entries alone. */
  lemma DeltaRefused(path: seq<Entry>, id: string, base: string, revision: string, delta: Option<seq<Message>>)
    requires DistinctIds(path) && Fold(path).Success?
    ensures var r := Fold(path + [Entry(id, Delta(base, revision, delta))]);
            && (revision == "" || delta.None? ==> r == Failure(InvalidDelta))
            && (revision != "" && delta.Some? && (forall n :: 0 <= n <= |path| && QuietFrom(path, n) ==> base != IdAt(path, n)) ==>
                  r == Failure(AnchorMissing))
  {
    hide Run;
    FoldIsRun(path);
    RunSnoc(path, Entry(id, Delta(base, revision, delta)));
    AnchorsArePrefixes(path);
  }

  /** The same for an accepted turn: the run's final messages and the turns typed meanwhile. */
  lemma CommittedTurn(path: seq<Entry>, base: Folded, result: RunResult, n: nat, id: string)
    requires DistinctIds(path) && Fold(path).Success?
    requires CanCommit(path, base, result) && StillAnchored(path, base, n)
    ensures var delta := result.state.messages[|base.messages|..];
            exists later :: LaterInputs(path, n, delta, later)
              && Fold(path + [Entry(id, Delta(base.leafId, result.revision, Some(delta)))])
                 == Success(Folded(result.state.messages + later, result.revision, id))
  {
    hide Fold;
    CommitFoldRoundTrip(path, base, result, n, id);
    UnconsumedIsLater(path, n, result.state.messages[|base.messages|..]);
  }

  /** Why a turn is refused, in the order in which it is looked at: its revision, then its messages
      against the seed, then the inputs it took, then its anchor. */
  lemma TurnRefused(path: seq<Entry>, base: Folded, result: RunResult)
    ensures var r := Prepare(path, base, result);
            if result.state == Absent then r == Success(None)
            else if result.revision == "" then r == Failure(NoRevision)
            else if base.revision != "" && base.revision != result.revision then r == Failure(RevisionChanged)
            else if result.state == NoMessageArray then r == Failure(NoMessages)
            else if |result.state.messages| < |base.messages| then r == Failure(ReplacedSeed)
            else if !(base.messages <= result.state.messages) then
              exists i :: 0 <= i < |base.messages| && base.messages[i] != result.state.messages[i]
                          && base.messages[..i] == result.state.messages[..i] && r == Failure(ChangedSeed(i))
            else if !Valid(result.state.messages) then r == Failure(InvalidResult)
            else if TakesForeign(path, result.state.messages[|base.messages|..]) then r == Failure(LeafChanged)
            else if base.leafId != "" && (forall e :: e in path ==> e.id != base.leafId) then r == Failure(LeafChanged)
            else
              exists n :: AnchorAt(path, base.leafId, n) && match Fold(path[..n])
                                                            case Failure(err) => r == Failure(AnchorUnfoldable(err))
                                                            case Success(h) =>
                                                              if h.messages != base.messages || h.revision != base.revision
                                                              then r == Failure(SeedDiffers)
                                                              else (r.Success? && r.value.Some?) || r == Failure(LeafChanged)
  {
    hide Fold, Valid, Consumed, FirstDifference;
    if result.state.Final? && |base.messages| <= |result.state.messages| {
      var before, after := base.messages, result.state.messages;
      SeedDiffersAt(before, after, 0);
      if before <= after {
        ForeignIsConsumed(path, after[|before|..]);
        if base.leafId != "" { FoundIsFirst(path, base.leafId, 0); }
        if AnchorLength(path, base.leafId).Some? { assert AnchorAt(path, base.leafId, AnchorLength(path, base.leafId).value); }
      }
    }
  }

  /** A user message of ms carries an input id that no entry of the path has. */
  ghost predicate TakesForeign(path: seq<Entry>, ms: seq<Message>) {
    exists k :: 0 <= k < |ms| && ms[k].role == User && ms[k].inputId != "" && forall e :: e in path ==> e.id != ms[k].inputId
  }

  /** The first n entries end with the first one of this id; none of them is the root's. */
  predicate AnchorAt(path: seq<Entry>, id: string, n: int) {
    if id == "" then n == 0
    else 0 < n <= |path| && path[n - 1].id == id && forall k :: 0 <= k < n - 1 ==> path[k].id != id
  }

  lemma {:induction false} SeedDiffersAt(before: seq<Message>, after: seq<Message>, i: nat)
    requires |before| <= |after| && i <= |before| && before[..i] == after[..i]
    ensures var d := FirstDifference(before, after, i);
            && (d == |before| <==> before <= after)
            && (d < |before| ==> before[d] != after[d] && before[..d] == after[..d])
    decreases |before| - i
  {
    if i < |before| && before[i] == after[i] {
      assert before[..i + 1] == before[..i] + [before[i]] && after[..i + 1] == after[..i] + [after[i]];
      SeedDiffersAt(before, after, i + 1);
    } else if i == |before| {
      assert before[..i] == before;
    }
  }

  lemma ForeignIsConsumed(path: seq<Entry>, ms: seq<Message>)
    ensures TakesForeign(path, ms) <==> exists id :: id in Consumed(ms) && id !in Ids(path)
  {
    hide Consumed;
    forall id | id != "" ensures id in Consumed(ms) <==> Takes(ms, id) { TakesIsConsumed(ms, id); }
    ConsumedIsNamed(ms);
    if TakesForeign(path, ms) {
      var k :| 0 <= k < |ms| && ms[k].role == User && ms[k].inputId != "" && forall e :: e in path ==> e.id != ms[k].inputId;
      assert Takes(ms, ms[k].inputId);
      assert ms[k].inputId in Consumed(ms) && ms[k].inputId !in Ids(path);
    }
    if id :| id in Consumed(ms) && id !in Ids(path) {
      assert Takes(ms, id);
      var k :| 0 <= k < |ms| && ms[k].role == User && ms[k].inputId == id;
      assert forall e :: e in path ==> e.id in Ids(path);
    }
  }

  lemma {:induction false} ConsumedIsNamed(ms: seq<Message>)
    ensures "" !in Consumed(ms)
  {
    if ms != [] { ConsumedIsNamed(ms[1..]); }
  }

  lemma {:induction false} FoundIsFirst(path: seq<Entry>, id: string, i: nat)
    requires i <= |path|
    ensures var r := FindFrom(path, id, i);
            && (r.None? ==> forall k :: i <= k < |path| ==> path[k].id != id)
            && (r.Some? ==> forall k :: i <= k < r.value - 1 ==> path[k].id != id)
    decreases |path| - i
  {
    if i < |path| && path[i].id != id { FoundIsFirst(path, id, i + 1); }
  }

  // ---------- a typed turn stands until it is taken ----------

  /** Since entry i there is no /clear, no delta that takes it, and no checkpoint over it. */
  ghost predicate Untaken(path: seq<Entry>, i: nat)
    requires i < |path|
  {
    forall j :: i < j < |path| ==> Leaves(path, j, path[i].id)
  }

  ghost predicate Leaves(path: seq<Entry>, j: nat, id: string)
    requires j < |path|
  {
    match path[j].kind
    case Clear => false
    case Delta(_, _, Some(delta)) => !Takes(delta, id)
    case Compaction(_, _, keepFrom, _) =>
      Run(path[..j]).Success? && 0 <= keepFrom <= |Run(path[..j]).value.messages| ==>
        !Takes(Run(path[..j]).value.messages[..keepFrom], id)
    case _ => true
  }

  /** Then it stands in the transcript, with its text. */
  lemma {:induction false} TypedTurnStands(path: seq<Entry>, i: nat)
    requires DistinctIds(path) && Run(path).Success? && i < |path| && Typed(path[i].kind) && Untaken(path, i)
    ensures Message(User, path[i].kind.text, path[i].id, "", "", "", [], "") in Run(path).value.messages
    decreases |path|
  {
    hide Run, Takes;
    var e, before := path[|path| - 1], path[..|path| - 1];
    assert path == before + [e];
    RunSnoc(before, e);
    if i == |before| {
      assert IsInput(e);
      StepShape(Run(before).value, e);
    } else {
      assert Leaves(path, |before|, path[i].id);
      assert !e.kind.Clear?;
      forall j | i < j < |before| ensures Leaves(before, j, path[i].id) {
        assert Leaves(path, j, path[i].id);
        assert path[..j] == before[..j];
      }
      TypedTurnStands(before, i);
      StepKeepsMessage(Run(before).value, e, Message(User, path[i].kind.text, path[i].id, "", "", "", [], ""));
    }
  }

  lemma StepKeepsMessage(st: State, e: Entry, m: Message)
    requires Step(st, e).Success? && !e.kind.Clear? && m in st.messages && m.role.User? && m.inputId != ""
    requires e.kind.Delta? && e.kind.delta.Some? ==> !Takes(e.kind.delta.value, m.inputId)
    requires e.kind.Compaction? && 0 <= e.kind.keepFrom <= |st.messages| ==>
               !Takes(st.messages[..e.kind.keepFrom], m.inputId)
    ensures m in Step(st, e).value.messages
  {
    var k :| 0 <= k < |st.messages| && st.messages[k] == m;
    match e.kind
    case Compaction(_, _, keepFrom, summary) =>
      TakesInPrefix(st.messages, keepFrom, k);
      assert st.messages[keepFrom..][k - keepFrom] == m;
    case Delta(base, _, delta) =>
      var n := st.markers[base].count;
      TakesIsConsumed(delta.value, m.inputId);
      if k < n {
        assert st.messages[..n][k] == m;
      } else {
        assert st.messages[n..][k - n] == m;
        UnconsumedHas(st.messages[n..], Consumed(delta.value), m);
      }
    case _ =>
  }

  lemma TakesInPrefix(ms: seq<Message>, n: nat, k: nat)
    requires n <= |ms| && k < |ms| && ms[k].role.User?
    ensures k < n ==> Takes(ms[..n], ms[k].inputId)
  {
    if k < n {
      assert ms[..n][k] == ms[k];
    }
  }

  lemma {:induction false} UnconsumedHas(ms: seq<Message>, consumed: set<string>, m: Message)
    requires m in ms && m.inputId !in consumed
    ensures m in Unconsumed(ms, consumed)
  {
    if ms[0] != m {
      UnconsumedHas(ms[1..], consumed, m);
    }
  }
}
