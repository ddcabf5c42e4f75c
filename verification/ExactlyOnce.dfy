/** When every run consumes only inputs entered after its anchor, once each, no input ever stands
    in the transcript twice. */
module ExactlyOnce {
  import opened Wrappers
  import opened Transcript
  import opened History
  import opened Anchors

  ghost predicate Once(ids: seq<string>) { forall id :: multiset(ids)[id] <= 1 }

  /** A delta entry takes its input ids from what was entered after its anchor, each once. */
  ghost predicate ConsumesOwnInputs(before: seq<Entry>, e: Entry) {
    e.kind.Delta? && e.kind.delta.Some? ==>
      exists n :: 0 <= n <= |before| && QuietFrom(before, n) && e.kind.base == IdAt(before, n)
                  && DrawnFrom(InputIds(e.kind.delta.value), InputIds(InputsFrom(before, n)))
  }

  ghost predicate DrawnFrom(ids: seq<string>, pool: seq<string>) {
    Once(ids) && forall id :: id in ids ==> id in pool
  }

  ghost predicate Disciplined(path: seq<Entry>) {
    path == [] || (Disciplined(path[..|path| - 1]) && ConsumesOwnInputs(path[..|path| - 1], path[|path| - 1]))
  }

  ghost predicate OnPath(ids: seq<string>, path: seq<Entry>) {
    forall id :: id in ids ==> exists k :: 0 <= k < |path| && path[k].id == id
  }

  lemma {:induction false} EachInputOnce(path: seq<Entry>)
    requires DistinctIds(path) && Run(path).Success? && Disciplined(path)
    ensures Once(InputIds(Run(path).value.messages)) && OnPath(InputIds(Run(path).value.messages), path)
    decreases |path|
  {
    hide Run;
    if path == [] {
      RunEmpty();
    } else {
      var e, before := path[|path| - 1], path[..|path| - 1];
      assert path == before + [e];
      RunSnoc(before, e);
      if !e.kind.Clear? {
        EachInputOnce(before);
        forall id | id in InputIds(Run(before).value.messages)
          ensures exists k :: 0 <= k < |path| && path[k].id == id
        {
          var k :| 0 <= k < |before| && before[k].id == id;
          assert path[k].id == id;
        }
        assert path[|before|].id == e.id;
        if e.kind.Delta? {
          DeltaKeepsOnce(before, e);
        } else {
          StepKeepsOnce(Run(before).value, e, path);
        }
      }
    }
  }

  lemma RunEmpty()
    ensures Run([]) == Success(START)
  {
  }

  /** What a step that is no delta does to the ids: nothing, one more, or a suffix is kept. */
  lemma StepIds(st: State, e: Entry) returns (dropped: nat)
    requires Step(st, e).Success? && !e.kind.Clear? && !e.kind.Delta? && e.id != ""
    ensures var was, now := InputIds(st.messages), InputIds(Step(st, e).value.messages);
            dropped <= |was| && (now == was[dropped..] || (dropped == 0 && now == was + [e.id]))
  {
    dropped := 0;
    if IsInput(e) {
      InputIdsConcat(st.messages, [UserMessage(e)]);
      assert InputIds([UserMessage(e)]) == [e.id] by { assert [UserMessage(e)][1..] == []; }
    } else if e.kind.Compaction? {
      SplitIds(st.messages, e.kind.keepFrom);
      SummaryAddsNoIds(st.messages, e.kind.keepFrom, e.id, e.kind.summary);
      dropped := |InputIds(st.messages[..e.kind.keepFrom])|;
    }
  }

  lemma StepKeepsOnce(st: State, e: Entry, path: seq<Entry>)
    requires Step(st, e).Success? && !e.kind.Clear? && !e.kind.Delta? && e.id != ""
    requires Once(InputIds(st.messages)) && OnPath(InputIds(st.messages), path) && OnPath([e.id], path)
    requires e.id !in InputIds(st.messages)
    ensures Once(InputIds(Step(st, e).value.messages)) && OnPath(InputIds(Step(st, e).value.messages), path)
  {
    hide Step;
    hide InputIds;
    var dropped := StepIds(st, e);
    OnceUnderSuffix(InputIds(st.messages), dropped, path);
    OnceUnderSnoc(InputIds(st.messages), e.id, path);
  }

  lemma OnceUnderSuffix(ids: seq<string>, dropped: nat, path: seq<Entry>)
    requires dropped <= |ids| && Once(ids) && OnPath(ids, path)
    ensures Once(ids[dropped..]) && OnPath(ids[dropped..], path)
  {
    assert ids == ids[..dropped] + ids[dropped..];
    forall id ensures multiset(ids[dropped..])[id] <= multiset(ids)[id] {
      assert multiset(ids) == multiset(ids[..dropped]) + multiset(ids[dropped..]);
    }
    assert forall id :: id in ids[dropped..] ==> id in ids;
  }

  lemma OnceUnderSnoc(ids: seq<string>, id: string, path: seq<Entry>)
    requires id !in ids && Once(ids) && OnPath(ids, path) && OnPath([id], path)
    ensures Once(ids + [id]) && OnPath(ids + [id], path)
  {
    assert multiset(ids + [id]) == multiset(ids) + multiset{id};
    assert id !in multiset(ids);
    assert id in [id];
  }

  lemma SummaryAddsNoIds(ms: seq<Message>, cut: nat, id: string, summary: string)
    requires cut <= |ms|
    ensures InputIds(SummaryView(ms, cut, SummaryMessage(id, summary))) == InputIds(ms[cut..])
  {
    var systems, note := Systems(ms[..cut]), SummaryMessage(id, summary);
    InputIdsConcat(systems + [note], ms[cut..]);
    InputIdsConcat(systems, [note]);
    SystemsAreSystems(ms[..cut]);
    NoUsersNoIds(systems);
    assert InputIds([note]) == [] by { assert [note][1..] == []; }
  }

  lemma {:induction false} NoUsersNoIds(ms: seq<Message>)
    requires forall k :: 0 <= k < |ms| ==> !ms[k].role.User?
    ensures InputIds(ms) == []
  {
    if ms != [] { NoUsersNoIds(ms[1..]); }
  }

  lemma {:induction false} UnconsumedCount(ms: seq<Message>, consumed: set<string>, id: string)
    ensures multiset(InputIds(Unconsumed(ms, consumed)))[id] ==
            if id in consumed then 0 else multiset(InputIds(ms))[id]
  {
    if ms != [] {
      var rest := Unconsumed(ms[1..], consumed);
      UnconsumedCount(ms[1..], consumed, id);
      var own := if ms[0].role.User? && ms[0].inputId != "" then [ms[0].inputId] else [];
      assert InputIds(ms) == own + InputIds(ms[1..]);
      if ms[0].inputId in consumed {
        assert Unconsumed(ms, consumed) == rest;
      } else {
        assert Unconsumed(ms, consumed) == [ms[0]] + rest;
        assert ([ms[0]] + rest)[1..] == rest;
        assert InputIds([ms[0]] + rest) == own + InputIds(rest);
      }
    }
  }

  lemma DeltaKeepsOnce(before: seq<Entry>, e: Entry)
    requires DistinctIds(before) && Run(before).Success? && Run(before + [e]).Success?
    requires e.kind.Delta? && ConsumesOwnInputs(before, e) && Once(InputIds(Run(before).value.messages))
    requires OnPath(InputIds(Run(before).value.messages), before + [e])
    ensures Once(InputIds(Run(before + [e]).value.messages))
    ensures OnPath(InputIds(Run(before + [e]).value.messages), before + [e])
  {
    hide Run;
    RunSnoc(before, e);
    var n :| 0 <= n <= |before| && QuietFrom(before, n) && e.kind.base == IdAt(before, n)
             && DrawnFrom(InputIds(e.kind.delta.value), InputIds(InputsFrom(before, n)));
    AnchorsArePrefixes(before);
    assert AnchoredAt(before, Run(before).value, n);
    DeltaReplacesSuffix(before, n, e);
    OnceAfterDelta(Run(before[..n]).value.messages, InputsFrom(before, n), e.kind.delta.value);
  }

  lemma OnceAfterDelta(kept: seq<Message>, inputs: seq<Message>, delta: seq<Message>)
    requires Once(InputIds(kept + inputs)) && DrawnFrom(InputIds(delta), InputIds(inputs))
    ensures var after := kept + delta + Unconsumed(inputs, Consumed(delta));
            Once(InputIds(after)) && forall id :: id in InputIds(after) ==> id in InputIds(kept + inputs)
  {
    var pending := Unconsumed(inputs, Consumed(delta));
    var k, i, d, p := InputIds(kept), InputIds(inputs), InputIds(delta), InputIds(pending);
    InputIdsConcat(kept, inputs);
    InputIdsConcat(kept + delta, pending);
    InputIdsConcat(kept, delta);
    forall id
      ensures multiset(k + d + p)[id] <= 1
      ensures id in k + d + p ==> id in k + i
    {
      UnconsumedCount(inputs, Consumed(delta), id);
      assert multiset(k + i)[id] <= 1 && multiset(d)[id] <= 1;
      assert multiset(k + i) == multiset(k) + multiset(i);
      assert multiset(k + d + p) == multiset(k) + multiset(d) + multiset(p);
      assert id in Consumed(delta) <==> id in multiset(d);
      assert id in p <==> id in multiset(p);
      assert id in i <==> id in multiset(i);
    }
  }

  /** So an input since the last /clear that no summary took is there exactly once. */
  lemma PendingInputsExactlyOnce(path: seq<Entry>, i: nat)
    requires DistinctIds(path) && Run(path).Success? && Disciplined(path)
    requires i < |path| && IsInput(path[i]) && NoClearFrom(path, i) && path[i].id !in Summarised(path)
    ensures multiset(InputIds(Run(path).value.messages))[path[i].id] == 1
  {
    InputsAreKept(path, i);
    EachInputOnce(path);
  }
}
