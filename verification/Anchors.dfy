/** What the fold keeps on every path whose entries have distinct ids: its markers are prefixes of
    the path, one revision rules since the last /clear, and no input is lost. */
module Anchors {
  import opened Wrappers
  import opened Transcript
  import opened History

  predicate DistinctIds(path: seq<Entry>) {
    && (forall i :: 0 <= i < |path| ==> path[i].id != "")
    && (forall i, j :: 0 <= i < j < |path| ==> path[i].id != path[j].id)
  }

  /** An entry that only adds to the transcript, so anchors before it stay usable. */
  predicate IsQuiet(k: Kind) { k.Chat? || k.Other? }

  predicate QuietFrom(path: seq<Entry>, n: nat) { forall k :: n <= k < |path| ==> IsQuiet(path[k].kind) }

  /** The id of the leaf after the first n entries. */
  function IdAt(path: seq<Entry>, n: nat): string
    requires n <= |path|
  {
    if n == 0 then "" else path[n - 1].id
  }

  /** The user messages the entries from n on contribute. */
  function InputsFrom(path: seq<Entry>, n: nat): seq<Message>
    requires n <= |path|
    decreases |path|
  {
    if n == |path| then []
    else
      var e, before := path[|path| - 1], path[..|path| - 1];
      InputsFrom(before, n) + (if IsInput(e) then [UserMessage(e)] else [])
  }

  /** A step places its entry; a quiet one adds at most its input, any other forgets all anchors. */
  lemma StepShape(st: State, e: Entry)
    requires Step(st, e).Success?
    ensures var next := Step(st, e).value;
            && next.leaf == e.id
            && e.id in next.markers && next.markers[e.id] == Marker(|next.messages|, next.revision)
            && (IsQuiet(e.kind) ==>
                  && next.messages == st.messages + (if IsInput(e) then [UserMessage(e)] else [])
                  && next.revision == st.revision
                  && next.markers == st.markers[e.id := Marker(|next.messages|, next.revision)])
            && (!IsQuiet(e.kind) ==> next.markers.Keys == {e.id})
  {
  }

  // ---------- anchors are prefixes ----------

  /** The marker st holds for the branch point after n entries: its count and revision are those of
      the fold up to there, and the transcript since then has grown by the later inputs alone. */
  predicate AnchoredAt(path: seq<Entry>, st: State, n: nat)
    requires n <= |path|
  {
    && Run(path[..n]).Success?
    && IdAt(path, n) in st.markers
    && var base := Run(path[..n]).value;
       && st.markers[IdAt(path, n)] == Marker(|base.messages|, base.revision)
       && st.messages == base.messages + InputsFrom(path, n)
       && st.revision == base.revision
  }

  predicate AnchorSound(path: seq<Entry>, st: State) {
    forall n :: 0 <= n <= |path| && QuietFrom(path, n) ==> AnchoredAt(path, st, n)
  }

  /** id names a branch point followed by quiet entries only. */
  predicate IsAnchorId(path: seq<Entry>, id: string) {
    exists n :: 0 <= n <= |path| && QuietFrom(path, n) && id == IdAt(path, n)
  }

  /** Exactly the branch points followed by quiet entries only are anchors, and each is a prefix. */
  lemma {:induction false} AnchorsArePrefixes(path: seq<Entry>)
    requires DistinctIds(path) && Run(path).Success?
    ensures Run(path).value.leaf == IdAt(path, |path|)
    ensures AnchorSound(path, Run(path).value)
    ensures forall id :: id in Run(path).value.markers <==> IsAnchorId(path, id)
    decreases |path|
  {
    if path == [] {
      assert path[..0] == path;
      assert IdAt(path, 0) == "" && QuietFrom(path, 0);
    } else {
      var e, before := path[|path| - 1], path[..|path| - 1];
      assert path == before + [e];
      if IsQuiet(e.kind) {
        AnchorsArePrefixes(before);
      }
      AnchorStep(path, before, e);
    }
  }

  lemma AnchorStep(path: seq<Entry>, before: seq<Entry>, e: Entry)
    requires path == before + [e] && DistinctIds(path) && Run(path).Success?
    requires IsQuiet(e.kind) ==>
               && Run(before).Success?
               && AnchorSound(before, Run(before).value)
               && forall id :: id in Run(before).value.markers <==> IsAnchorId(before, id)
    ensures Run(path).value.leaf == IdAt(path, |path|)
    ensures AnchorSound(path, Run(path).value)
    ensures forall id :: id in Run(path).value.markers <==> IsAnchorId(path, id)
  {
    hide Run;
    hide Step;
    hide AnchoredAt;
    hide IsAnchorId;
    var st := Run(path).value;
    RunSnoc(before, e);
    StepShape(if e.kind.Clear? then START else Run(before).value, e);
    OwnAnchor(path, st);
    if IsQuiet(e.kind) {
      forall n | 0 <= n < |path| && QuietFrom(path, n) ensures AnchoredAt(path, st, n) {
        QuietPrefix(path, before, e, n);
        AnchorSurvives(path, before, e, n);
      }
      QuietKeepsIds(path, before, e);
    } else {
      SeamIsOnlyAnchor(path, e);
    }
  }

  lemma QuietPrefix(path: seq<Entry>, before: seq<Entry>, e: Entry, n: nat)
    requires path == before + [e] && n <= |before| && QuietFrom(path, n)
    ensures QuietFrom(before, n)
  {
    forall k | n <= k < |before| ensures IsQuiet(before[k].kind) {
      assert path[k] == before[k];
    }
  }

  lemma SeamIsOnlyAnchor(path: seq<Entry>, e: Entry)
    requires path != [] && path[|path| - 1] == e && !IsQuiet(e.kind)
    ensures forall id :: IsAnchorId(path, id) <==> id == e.id
    ensures forall n :: 0 <= n <= |path| && QuietFrom(path, n) ==> n == |path|
  {
    assert QuietFrom(path, |path|) && IdAt(path, |path|) == e.id;
    forall id | IsAnchorId(path, id) ensures id == e.id {
      var n :| 0 <= n <= |path| && QuietFrom(path, n) && id == IdAt(path, n);
    }
  }

  lemma OwnAnchor(path: seq<Entry>, st: State)
    requires path != [] && Run(path) == Success(st)
    requires var id := IdAt(path, |path|); id in st.markers && st.markers[id] == Marker(|st.messages|, st.revision)
    ensures AnchoredAt(path, st, |path|)
  {
    hide Run;
    assert path[..|path|] == path;
    assert st.messages == st.messages + [];
  }

  lemma AnchorSurvives(path: seq<Entry>, before: seq<Entry>, e: Entry, n: nat)
    requires path == before + [e] && DistinctIds(path) && Run(path).Success? && Run(before).Success?
    requires n <= |before| && QuietFrom(path, n) && AnchoredAt(before, Run(before).value, n)
    ensures AnchoredAt(path, Run(path).value, n)
  {
    hide Run;
    hide Step;
    RunSnoc(before, e);
    StepShape(Run(before).value, e);
    assert path[..|path| - 1] == before && path[|path| - 1] == e;
    assert before[..n] == path[..n] && IdAt(before, n) == IdAt(path, n) != e.id;
  }

  lemma QuietKeepsIds(path: seq<Entry>, before: seq<Entry>, e: Entry)
    requires path == before + [e] && IsQuiet(e.kind) && Run(before).Success? && Run(path).Success?
    requires forall id :: id in Run(before).value.markers <==> IsAnchorId(before, id)
    ensures forall id :: id in Run(path).value.markers <==> IsAnchorId(path, id)
  {
    hide Run;
    hide Step;
    RunSnoc(before, e);
    StepShape(Run(before).value, e);
    assert QuietFrom(path, |path|) && IdAt(path, |path|) == e.id;
    forall id ensures IsAnchorId(path, id) <==> id == e.id || IsAnchorId(before, id) {
      if IsAnchorId(before, id) {
        var n :| 0 <= n <= |before| && QuietFrom(before, n) && id == IdAt(before, n);
        assert QuietFrom(path, n) && id == IdAt(path, n);
      }
      if IsAnchorId(path, id) && id != e.id {
        var n :| 0 <= n <= |path| && QuietFrom(path, n) && id == IdAt(path, n);
        assert n < |path|;
        QuietPrefix(path, before, e, n);
        assert QuietFrom(before, n) && id == IdAt(before, n);
      }
    }
  }

  /** No marker ever counts past the end of the transcript, so that check of the fold is never the
      one that fails. */
  lemma {:induction false} CountsAreInRange(path: seq<Entry>, id: string)
    requires DistinctIds(path) && Run(path).Success? && id in Run(path).value.markers
    ensures Run(path).value.markers[id].count <= |Run(path).value.messages|
  {
    hide Run;
    AnchorsArePrefixes(path);
    assert IsAnchorId(path, id);
    var n :| 0 <= n <= |path| && QuietFrom(path, n) && id == IdAt(path, n);
    assert AnchoredAt(path, Run(path).value, n);
  }

  /** All native deltas since the last /clear carry the revision the fold reports. */
  lemma {:induction false} OneRevision(path: seq<Entry>, i: nat)
    requires DistinctIds(path) && Run(path).Success? && i < |path|
    requires path[i].kind.Delta? && NoClearFrom(path, i)
    ensures path[i].kind.revision == Run(path).value.revision != ""
    decreases |path|
  {
    var e, before := path[|path| - 1], path[..|path| - 1];
    if i < |before| {
      OneRevision(before, i);
      if e.kind.Delta? {
        AnchorsArePrefixes(before);
        assert IsAnchorId(before, e.kind.base);
        var n :| 0 <= n <= |before| && QuietFrom(before, n) && e.kind.base == IdAt(before, n);
        assert AnchoredAt(before, Run(before).value, n);
      }
    }
  }

  // ---------- what a delta leaves ----------

  /** A delta over the anchor after n entries: the transcript up to there, the delta, and the later
      inputs it did not consume, in order. */
  lemma DeltaReplacesSuffix(path: seq<Entry>, n: nat, e: Entry)
    requires DistinctIds(path) && Run(path).Success? && n <= |path| && QuietFrom(path, n)
    requires e.kind.Delta? && e.kind.base == IdAt(path, n) && e.kind.delta.Some? && e.kind.revision != ""
    requires Run(path).value.revision in {"", e.kind.revision}
    ensures Run(path[..n]).Success? && Run(path + [e]).Success?
    ensures var delta := e.kind.delta.value;
            Run(path + [e]).value.messages ==
            Run(path[..n]).value.messages + delta + Unconsumed(InputsFrom(path, n), Consumed(delta))
    ensures Run(path + [e]).value.revision == e.kind.revision && Run(path + [e]).value.leaf == e.id
  {
    hide Run;
    AnchorsArePrefixes(path);
    var st := Run(path).value;
    assert AnchoredAt(path, st, n);
    RunSnoc(path, e);
    var base := Run(path[..n]).value;
    assert st.messages[|base.messages|..] == InputsFrom(path, n) && st.messages[..|base.messages|] == base.messages;
  }

  // ---------- no durable input is lost ----------

  /** The ids a compaction since the last /clear replaced by a summary. */
  function Summarised(path: seq<Entry>): set<string> {
    if path == [] then {}
    else
      var e, before := path[|path| - 1], path[..|path| - 1];
      if e.kind.Clear? then {}
      else if e.kind.Compaction? && Run(before).Success? && 0 <= e.kind.keepFrom <= |Run(before).value.messages| then
        Summarised(before) + Consumed(Run(before).value.messages[..e.kind.keepFrom])
      else Summarised(before)
  }

  /** Every input since the last /clear is in the transcript under its id, unless a summary took it. */
  lemma {:induction false} InputsAreKept(path: seq<Entry>, i: nat)
    requires DistinctIds(path) && Run(path).Success?
    requires i < |path| && IsInput(path[i]) && NoClearFrom(path, i)
    ensures path[i].id in InputIds(Run(path).value.messages) || path[i].id in Summarised(path)
    decreases |path|
  {
    hide Run;
    var e, before := path[|path| - 1], path[..|path| - 1];
    assert path == before + [e];
    RunSnoc(before, e);
    if i == |before| {
      InputIdsConcat(Run(before).value.messages, [UserMessage(e)]);
    } else {
      assert !e.kind.Clear?;
      InputsAreKept(before, i);
      if path[i].id in InputIds(Run(before).value.messages) {
        StepKeepsIds(Run(before).value, e, path[i].id);
      }
    }
  }

  /** A step keeps every input id of the transcript but those a compaction summarises. */
  lemma StepKeepsIds(st: State, e: Entry, id: string)
    requires Step(st, e).Success? && !e.kind.Clear? && id in InputIds(st.messages)
    ensures id in InputIds(Step(st, e).value.messages)
            || (e.kind.Compaction? && 0 <= e.kind.keepFrom <= |st.messages|
                && id in Consumed(st.messages[..e.kind.keepFrom]))
  {
    match e.kind
    case Chat(_, _, _, _) =>
      if IsInput(e) { InputIdsConcat(st.messages, [UserMessage(e)]); }
    case Compaction(_, _, keepFrom, summary) =>
      SplitIds(st.messages, keepFrom);
      InputIdsConcat(Systems(st.messages[..keepFrom]) + [SummaryMessage(e.id, summary)], st.messages[keepFrom..]);
    case Delta(base, _, delta) =>
      DeltaKeepsIds(st.messages, st.markers[base].count, delta.value, id);
    case _ =>
  }

  lemma SplitIds(ms: seq<Message>, n: nat)
    requires n <= |ms|
    ensures InputIds(ms) == InputIds(ms[..n]) + InputIds(ms[n..])
  {
    assert ms == ms[..n] + ms[n..];
    InputIdsConcat(ms[..n], ms[n..]);
  }

  lemma DeltaKeepsIds(ms: seq<Message>, n: nat, delta: seq<Message>, id: string)
    requires n <= |ms| && id in InputIds(ms)
    ensures id in InputIds(ms[..n] + delta + Unconsumed(ms[n..], Consumed(delta)))
  {
    var pending := Unconsumed(ms[n..], Consumed(delta));
    SplitIds(ms, n);
    InputIdsConcat(ms[..n] + delta, pending);
    InputIdsConcat(ms[..n], delta);
    if id in InputIds(ms[n..]) && id !in InputIds(delta) {
      UnconsumedKeeps(ms[n..], Consumed(delta), id);
    }
  }

  lemma {:induction false} UnconsumedKeeps(ms: seq<Message>, consumed: set<string>, id: string)
    requires id in InputIds(ms) && id !in consumed
    ensures id in InputIds(Unconsumed(ms, consumed))
  {
    var rest := Unconsumed(ms[1..], consumed);
    if id in InputIds(ms[1..]) {
      UnconsumedKeeps(ms[1..], consumed, id);
    }
    if ms[0].inputId in consumed {
      assert Unconsumed(ms, consumed) == rest;
    } else {
      assert Unconsumed(ms, consumed) == [ms[0]] + rest;
      InputIdsConcat([ms[0]], rest);
      assert InputIds(ms) == InputIds([ms[0]]) + InputIds(ms[1..]) by {
        assert ms == [ms[0]] + ms[1..];
        InputIdsConcat([ms[0]], ms[1..]);
      }
    }
  }
}
