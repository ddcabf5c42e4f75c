/** The guarded commit of a run's turn (internal/runtime/pi_conversation.go): the run's final
    transcript is accepted as a delta over its anchor, or rejected. */
module Commit {
  import opened Wrappers
  import opened Transcript
  import opened History
  import opened Anchors

  /** What a native run reports: no state at all, state without a message array, or its messages. */
  datatype NativeState = Absent | NoMessageArray | Final(messages: seq<Message>)

  datatype RunResult = RunResult(state: NativeState, revision: string)

  datatype CommitError =
    | NoRevision
    | RevisionChanged
    | NoMessages
    | ReplacedSeed
    | ChangedSeed(index: nat)
    | InvalidResult
    | LeafChanged
    | AnchorUnfoldable(fold: FoldError)
    | SeedDiffers

  /** The kinds after which an older anchor no longer authorises a delta. */
  predicate IsSeam(k: Kind) {
    k.Delta? || k.Clear? || k.LegacyCompaction? || k.Compaction?
    || (k.Unreadable? && (k.payloadOf.DeltaPayload? || k.payloadOf.CompactionPayload?))
  }

  // ---------- the suffix of an unchanged seed ----------

  function FirstDifference(before: seq<Message>, after: seq<Message>, i: nat): (d: nat)
    requires |before| <= |after| && i <= |before|
    ensures i <= d <= |before|
    decreases |before| - i
  {
    if i < |before| && before[i] == after[i] then FirstDifference(before, after, i + 1) else i
  }

  function Suffix(before: seq<Message>, state: NativeState): Result<seq<Message>, CommitError> {
    if !state.Final? then Failure(NoMessages)
    else if |state.messages| < |before| then Failure(ReplacedSeed)
    else
      var d := FirstDifference(before, state.messages, 0);
      if d < |before| then Failure(ChangedSeed(d))
      else if !Valid(state.messages) then Failure(InvalidResult)
      else Success(state.messages[|before|..])
  }

  method ConversationSuffix(before: seq<Message>, state: NativeState) returns (r: Result<seq<Message>, CommitError>)
    ensures r == Suffix(before, state)
    ensures r == Failure(NoMessages) <==> !state.Final?
    ensures state.Final? ==> (r == Failure(ReplacedSeed) <==> |state.messages| < |before|)
    ensures state.Final? && |before| <= |state.messages| ==>
              forall i :: 0 <= i < |before| && before[i] != state.messages[i] && before[..i] == state.messages[..i] ==>
                r == Failure(ChangedSeed(i))
    ensures state.Final? && before <= state.messages ==>
              r == if Valid(state.messages) then Success(state.messages[|before|..]) else Failure(InvalidResult)
  {
    if !state.Final? { return Failure(NoMessages); }
    var after := state.messages;
    if |after| < |before| { return Failure(ReplacedSeed); }
    for i := 0 to |before|
      invariant FirstDifference(before, after, 0) == FirstDifference(before, after, i)
      invariant forall k :: 0 <= k < i ==> before[k] == after[k]
    {
      if before[i] != after[i] { return Failure(ChangedSeed(i)); }
    }
    if !Valid(after) { return Failure(InvalidResult); }
    return Success(after[|before|..]);
  }

  // ---------- the guards ----------

  function Ids(path: seq<Entry>): set<string> { set e | e in path :: e.id }

  /** The number of entries up to the one with this id: 0 for the root, None when it is not there. */
  function AnchorLength(path: seq<Entry>, leafId: string): Option<nat> {
    if leafId == "" then Some(0) else FindFrom(path, leafId, 0)
  }

  function FindFrom(path: seq<Entry>, id: string, i: nat): (r: Option<nat>)
    requires i <= |path|
    ensures r.Some? ==> i < r.value <= |path| && path[r.value - 1].id == id
    decreases |path| - i
  {
    if i == |path| then None else if path[i].id == id then Some(i + 1) else FindFrom(path, id, i + 1)
  }

  predicate NoSeamFrom(path: seq<Entry>, n: nat) { forall k :: n <= k < |path| ==> !IsSeam(path[k].kind) }

  /** The entry a turn would append at the leaf of path, None when there is nothing to persist. */
  function Prepare(path: seq<Entry>, base: Folded, result: RunResult): Result<Option<Kind>, CommitError> {
    if result.state.Absent? then Success(None)
    else if result.revision == "" then Failure(NoRevision)
    else if base.revision != "" && base.revision != result.revision then Failure(RevisionChanged)
    else match Suffix(base.messages, result.state)
      case Failure(err) => Failure(err)
      case Success(suffix) =>
        if exists id :: id in Consumed(suffix) && id !in Ids(path) then Failure(LeafChanged)
        else match AnchorLength(path, base.leafId)
          case None => Failure(LeafChanged)
          case Some(n) =>
            match Fold(path[..n])
            case Failure(err) => Failure(AnchorUnfoldable(err))
            case Success(current) =>
              if current.messages != base.messages || current.revision != base.revision then Failure(SeedDiffers)
              else if !NoSeamFrom(path, n) then Failure(LeafChanged)
              else Success(Some(Delta(base.leafId, result.revision, Some(suffix))))
  }

  lemma IdsSnoc(path: seq<Entry>, i: nat)
    requires i < |path|
    ensures Ids(path[..i + 1]) == Ids(path[..i]) + {path[i].id}
  {
    assert path[..i + 1] == path[..i] + [path[i]];
  }

  method PrepareTurn(path: seq<Entry>, base: Folded, result: RunResult) returns (r: Result<Option<Kind>, CommitError>)
    ensures r == Prepare(path, base, result)
  {
    hide Fold;
    if result.state.Absent? { return Success(None); }
    if result.revision == "" { return Failure(NoRevision); }
    if base.revision != "" && base.revision != result.revision { return Failure(RevisionChanged); }
    var suffix := ConversationSuffix(base.messages, result.state);
    if suffix.Failure? { return Failure(suffix.error); }
    var onPath := IdSet(path);
    var consumed := ConsumedInputs(suffix.value);
    if exists id :: id in consumed && id !in onPath { return Failure(LeafChanged); }
    var n := 0;
    if base.leafId != "" {
      var i := 0;
      while i < |path| && path[i].id != base.leafId
        invariant 0 <= i <= |path|
        invariant FindFrom(path, base.leafId, 0) == FindFrom(path, base.leafId, i)
      {
        i := i + 1;
      }
      if i == |path| { return Failure(LeafChanged); }
      n := i + 1;
    }
    var current := FoldHistory(path[..n]);
    if current.Failure? { return Failure(AnchorUnfoldable(current.error)); }
    if current.value.messages != base.messages || current.value.revision != base.revision {
      return Failure(SeedDiffers);
    }
    for i := n to |path|
      invariant forall k :: n <= k < i ==> !IsSeam(path[k].kind)
    {
      if IsSeam(path[i].kind) { return Failure(LeafChanged); }
    }
    return Success(Some(Delta(base.leafId, result.revision, Some(suffix.value))));
  }

  method IdSet(path: seq<Entry>) returns (ids: set<string>)
    ensures ids == Ids(path)
  {
    ids := {};
    for i := 0 to |path|
      invariant ids == Ids(path[..i])
    {
      IdsSnoc(path, i);
      ids := ids + {path[i].id};
    }
    assert path[..|path|] == path;
  }

  // ---------- when a turn is accepted ----------

  /** base is the fold of a branch point from which the path has only grown quietly. */
  ghost predicate StillAnchored(path: seq<Entry>, base: Folded, n: nat) {
    n <= |path| && QuietFrom(path, n) && Fold(path[..n]) == Success(base)
  }

  ghost predicate CanCommit(path: seq<Entry>, base: Folded, result: RunResult) {
    && result.state.Final?
    && result.revision != "" && base.revision in {"", result.revision}
    && base.messages <= result.state.messages && Valid(result.state.messages)
    && Consumed(result.state.messages[|base.messages|..]) <= Ids(path)
    && exists n :: StillAnchored(path, base, n)
  }

  lemma {:induction false} NoDifference(before: seq<Message>, after: seq<Message>, i: nat)
    requires |before| <= |after| && i <= |before| && before[..i] == after[..i]
    ensures FirstDifference(before, after, i) == |before| <==> before <= after
    decreases |before| - i
  {
    if i < |before| && before[i] == after[i] {
      assert before[..i + 1] == before[..i] + [before[i]] && after[..i + 1] == after[..i] + [after[i]];
      NoDifference(before, after, i + 1);
    } else if i == |before| {
      assert before[..i] == before && after[..i] <= after;
    }
  }

  lemma {:induction false} FindsAnchor(path: seq<Entry>, n: nat, i: nat)
    requires DistinctIds(path) && i < n <= |path|
    ensures FindFrom(path, path[n - 1].id, i) == Some(n)
    decreases n - i
  {
    if i < n - 1 {
      FindsAnchor(path, n, i + 1);
    }
  }

  /** On a path that folds, an entry that is no seam is quiet. */
  lemma NoSeamIsQuiet(path: seq<Entry>, n: nat)
    requires Run(path).Success? && n <= |path| && NoSeamFrom(path, n)
    ensures QuietFrom(path, n)
  {
    forall k | n <= k < |path| ensures IsQuiet(path[k].kind) {
      if Run(path[..k + 1]).Failure? {
        FailureStays(path, k + 1);
      }
      assert path[..k + 1][..k] == path[..k];
    }
  }

  lemma LeafIsLast(path: seq<Entry>)
    requires DistinctIds(path) && Fold(path).Success?
    ensures Fold(path).value.leafId == IdAt(path, |path|)
  {
    AnchorsArePrefixes(path);
  }

  lemma PrefixDistinct(path: seq<Entry>, n: nat)
    requires DistinctIds(path) && n <= |path|
    ensures DistinctIds(path[..n])
  {
  }

  /** A turn is accepted exactly when its run extended a seed that is still anchored on the path. */
  lemma AcceptedExactlyWhen(path: seq<Entry>, base: Folded, result: RunResult)
    requires DistinctIds(path) && Fold(path).Success?
    ensures var r := Prepare(path, base, result);
            && (r == Success(None) <==> result.state == Absent)
            && (r.Success? && r.value.Some? <==> CanCommit(path, base, result))
            && (CanCommit(path, base, result) ==>
                  r.value.value == Delta(base.leafId, result.revision, Some(result.state.messages[|base.messages|..])))
  {
    hide Fold;
    if result.state.Final? && |base.messages| <= |result.state.messages| {
      NoDifference(base.messages, result.state.messages, 0);
      assert result.state.messages[..0] == base.messages[..0];
    }
    if CanCommit(path, base, result) {
      var n: nat :| StillAnchored(path, base, n);
      CommitFindsAnchor(path, base, n);
      assert AnchorLength(path, base.leafId) == Some(n);
      assert NoSeamFrom(path, n);
    }
    if Prepare(path, base, result).Success? && Prepare(path, base, result).value.Some? {
      var n := AnchorLength(path, base.leafId).value;
      FoldIsRun(path);
      NoSeamIsQuiet(path, n);
      PrefixDistinct(path, n);
      LeafIsLast(path[..n]);
      assert IdAt(path[..n], n) == IdAt(path, n);
      assert StillAnchored(path, base, n);
    }
  }

  lemma FoldIsRun(path: seq<Entry>)
    requires Fold(path).Success?
    ensures Run(path).Success? && Fold(path).value.messages == Run(path).value.messages
            && Fold(path).value.revision == Run(path).value.revision && Valid(Run(path).value.messages)
  {
  }

  lemma CommitFindsAnchor(path: seq<Entry>, base: Folded, n: nat)
    requires DistinctIds(path) && StillAnchored(path, base, n)
    ensures AnchorLength(path, base.leafId) == Some(n) && base.leafId == IdAt(path, n)
  {
    PrefixDistinct(path, n);
    LeafIsLast(path[..n]);
    assert IdAt(path[..n], n) == IdAt(path, n);
    if n > 0 {
      FindsAnchor(path, n, 0);
    }
  }

  // ---------- what an accepted turn leaves ----------

  lemma {:induction false} InputsAreUsers(path: seq<Entry>, n: nat)
    requires n <= |path|
    ensures AllUsers(InputsFrom(path, n))
    decreases |path|
  {
    if n < |path| {
      InputsAreUsers(path[..|path| - 1], n);
    }
  }

  lemma {:induction false} UnconsumedUsers(ms: seq<Message>, consumed: set<string>)
    requires AllUsers(ms)
    ensures AllUsers(Unconsumed(ms, consumed))
  {
    if ms != [] {
      UnconsumedUsers(ms[1..], consumed);
    }
  }

  lemma SameRevision(path: seq<Entry>, n: nat)
    requires DistinctIds(path) && Run(path).Success? && n <= |path| && QuietFrom(path, n)
    ensures Run(path[..n]).Success? && Run(path).value.revision == Run(path[..n]).value.revision
  {
    AnchorsArePrefixes(path);
    assert AnchoredAt(path, Run(path).value, n);
  }

  /** Folding the path an accepted turn extends gives the run's final messages, then, in order, the
      inputs entered after its anchor that it did not consume. */
  lemma CommitFoldRoundTrip(path: seq<Entry>, base: Folded, result: RunResult, n: nat, id: string)
    requires DistinctIds(path) && Fold(path).Success?
    requires CanCommit(path, base, result) && StillAnchored(path, base, n)
    ensures var suffix := result.state.messages[|base.messages|..];
            var e := Entry(id, Delta(base.leafId, result.revision, Some(suffix)));
            Fold(path + [e]) ==
            Success(Folded(result.state.messages + Unconsumed(InputsFrom(path, n), Consumed(suffix)), result.revision, id))
  {
    hide Run;
    hide Valid;
    hide AnchoredAt;
    var suffix := result.state.messages[|base.messages|..];
    var e := Entry(id, Delta(base.leafId, result.revision, Some(suffix)));
    var pending := Unconsumed(InputsFrom(path, n), Consumed(suffix));
    CommitFindsAnchor(path, base, n);
    FoldIsRun(path);
    FoldIsRun(path[..n]);
    SameRevision(path, n);
    DeltaReplacesSuffix(path, n, e);
    assert base.messages + suffix == result.state.messages;
    InputsAreUsers(path, n);
    UnconsumedUsers(InputsFrom(path, n), Consumed(suffix));
    UsersAreValid(pending);
    ValidConcat(result.state.messages, pending);
  }

  // ---------- resuming a parked run ----------

  /** The latest native checkpoint with no /clear and no compaction after it. */
  function ResumePoint(path: seq<Entry>): Option<nat> {
    if path == [] then None
    else
      var k := path[|path| - 1].kind;
      if k.Clear? || k.Compaction? || k == Unreadable(CompactionPayload) then None
      else if k.Delta? || k == Unreadable(DeltaPayload) then Some(|path|)
      else ResumePoint(path[..|path| - 1])
  }

  /** The last delta, with no other, no /clear and no compaction behind it. */
  lemma {:induction false} ResumePointExactlyWhen(path: seq<Entry>, n: nat)
    ensures ResumePoint(path) == Some(n) <==>
            && 0 < n <= |path| && (path[n - 1].kind.Delta? || path[n - 1].kind == Unreadable(DeltaPayload))
            && forall k :: n <= k < |path| ==>
                 var e := path[k].kind;
                 !e.Delta? && !e.Clear? && !e.Compaction? && e != Unreadable(DeltaPayload) && e != Unreadable(CompactionPayload)
    decreases |path|
  {
    if path != [] {
      var before := path[..|path| - 1];
      ResumePointExactlyWhen(before, n);
      assert forall k :: 0 <= k < |before| ==> before[k] == path[k];
    }
  }

  method ResumeHistory(entries: seq<Entry>) returns (r: Result<Folded, Option<FoldError>>)
    ensures match ResumePoint(entries)
            case None => r == Failure(None)
            case Some(n) => n <= |entries| && r == match Fold(entries[..n])
                                                   case Success(h) => Success(h)
                                                   case Failure(err) => Failure(Some(err))
  {
    hide Fold;
    var i := |entries|;
    assert entries[..i] == entries;
    while i > 0
      invariant 0 <= i <= |entries|
      invariant ResumePoint(entries) == ResumePoint(entries[..i])
    {
      assert entries[..i][..i - 1] == entries[..i - 1];
      var k := entries[i - 1].kind;
      if k.Clear? || k.Compaction? || k == Unreadable(CompactionPayload) { break; }
      if k.Delta? || k == Unreadable(DeltaPayload) {
        var folded := FoldHistory(entries[..i]);
        return match folded case Success(h) => Success(h) case Failure(err) => Failure(Some(err));
      }
      i := i - 1;
    }
    return Failure(None);
  }

  /** On a path that folds, the resume point is a delta, resuming there succeeds, and what it resumes
      from is still anchored: the resumed run can commit its turn on this path. */
  lemma ResumePointIsAnchored(path: seq<Entry>)
    requires DistinctIds(path) && Fold(path).Success? && ResumePoint(path).Some?
    ensures var n := ResumePoint(path).value;
            && 0 < n <= |path| && path[n - 1].kind.Delta?
            && Fold(path[..n]).Success? && StillAnchored(path, Fold(path[..n]).value, n)
  {
    hide Run, ResumePoint;
    FoldIsRun(path);
    RunResume(path);
    var n := ResumePoint(path).value;
    AnchorsArePrefixes(path);
    assert AnchoredAt(path, Run(path).value, n);
    InputsAreUsers(path, n);
    ValidBeforeUsers(Run(path[..n]).value.messages, InputsFrom(path, n));
  }

  lemma {:induction false} RunResume(path: seq<Entry>)
    requires Run(path).Success? && ResumePoint(path).Some?
    ensures var n := ResumePoint(path).value;
            0 < n <= |path| && path[n - 1].kind.Delta? && QuietFrom(path, n) && Run(path[..n]).Success?
    decreases |path|
  {
    hide Run;
    var e, before := path[|path| - 1], path[..|path| - 1];
    assert path == before + [e];
    RunSnoc(before, e);
    if e.kind.Delta? {
      assert path[..|path|] == path;
    } else {
      RunResume(before);
      var n := ResumePoint(path).value;
      assert before[..n] == path[..n];
    }
  }
}
