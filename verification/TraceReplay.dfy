/** Replaying a run's trace (internal/runtime/lab.go): one pass over the stored rows rebuilds the
    full request of every call, and what it rebuilds is what the sink was given. */
module TraceReplay {
  import opened TraceSink

  function Clamp(keep: int, length: nat): nat {
    if keep < 0 then 0 else if keep > length then length else keep
  }

  /** A row's context over the contexts rebuilt so far; a base that is missing leaves the delta alone. */
  function Rebuild(row: Row, contexts: map<nat, seq<Message>>): seq<Message> {
    if row.baseSeq != 0 && row.baseSeq in contexts then
      var base := contexts[row.baseSeq];
      base[..Clamp(row.keepPrefix, |base|)] + row.delta
    else row.delta
  }

  function Remember(row: Row, contexts: map<nat, seq<Message>>): map<nat, seq<Message>> {
    if row.seq_ != 0 then contexts[row.seq_ := Rebuild(row, contexts)] else contexts
  }

  function Contexts(rows: seq<Row>): map<nat, seq<Message>> {
    if rows == [] then map[] else Remember(rows[|rows| - 1], Contexts(rows[..|rows| - 1]))
  }

  function Replay(rows: seq<Row>): (out: seq<seq<Message>>)
    ensures |out| == |rows|
  {
    if rows == [] then []
    else
      var before := rows[..|rows| - 1];
      Replay(before) + [Rebuild(rows[|rows| - 1], Contexts(before))]
  }

  /** The last row before i with the number that row i leans on. */
  predicate LeansOn(rows: seq<Row>, i: nat, j: int)
    requires i < |rows|
  {
    && 0 <= j < i && rows[i].baseSeq == rows[j].seq_ != 0
    && forall k :: j < k < i ==> rows[k].seq_ != rows[j].seq_
  }

  /** What any rows, those of a broken store included, are rebuilt to: the delta, behind as much as is
      kept of what its base was rebuilt to, when there is a base. */
  lemma {:induction false} RebuiltFrom(rows: seq<Row>, i: nat)
    requires i < |rows|
    ensures forall j :: LeansOn(rows, i, j) ==>
              var (base, keep) := (Replay(rows)[j], rows[i].keepPrefix);
              Replay(rows)[i] == (if keep <= 0 then [] else if keep < |base| then base[..keep] else base) + rows[i].delta
    ensures (forall j :: 0 <= j < i ==> rows[j].seq_ != rows[i].baseSeq) || rows[i].baseSeq == 0 ==>
              Replay(rows)[i] == rows[i].delta
  {
    hide Replay, Contexts;
    ReplayAt(rows, i);
    var s := rows[i].baseSeq;
    ContextIsLatest(rows[..i], s);
    forall j | LeansOn(rows, i, j)
      ensures s in Contexts(rows[..i]) && Contexts(rows[..i])[s] == Replay(rows)[j]
    {
      var before := rows[..i];
      assert Latest(before, s, j);
      ReplayAt(rows, j);
      ReplayAt(before, j);
      assert before[..j] == rows[..j];
    }
  }

  predicate Latest(rows: seq<Row>, s: nat, j: int) {
    0 <= j < |rows| && rows[j].seq_ == s && forall k :: j < k < |rows| ==> rows[k].seq_ != s
  }

  /** The context remembered under a number is what its last row was rebuilt to. */
  lemma {:induction false} ContextIsLatest(rows: seq<Row>, s: nat)
    ensures s != 0 ==> forall j :: Latest(rows, s, j) ==> s in Contexts(rows) && Contexts(rows)[s] == Replay(rows)[j]
    ensures s in Contexts(rows) ==> exists j :: 0 <= j < |rows| && rows[j].seq_ == s
  {
    if rows != [] {
      var before, last := rows[..|rows| - 1], rows[|rows| - 1];
      ContextIsLatest(before, s);
      assert forall k :: 0 <= k < |before| ==> before[k] == rows[k];
      if last.seq_ != s {
        forall j | Latest(rows, s, j) ensures Latest(before, s, j) && Replay(rows)[j] == Replay(before)[j] {
        }
      }
    }
  }

  method RecordsFromCalls(rows: seq<Row>) returns (out: seq<seq<Message>>)
    ensures out == Replay(rows)
  {
    out := [];
    var contexts: map<nat, seq<Message>> := map[];
    for i := 0 to |rows|
      invariant out == Replay(rows[..i]) && contexts == Contexts(rows[..i])
    {
      assert rows[..i + 1][..i] == rows[..i];
      var row := rows[i];
      var msgs := row.delta;
      if row.baseSeq != 0 {
        if row.baseSeq in contexts {
          var base := contexts[row.baseSeq];
          var keep := Clamp(row.keepPrefix, |base|);
          msgs := base[..keep];
          msgs := msgs + row.delta;
        }
      }
      if row.seq_ != 0 {
        contexts := contexts[row.seq_ := msgs];
      }
      out := out + [msgs];
    }
    assert rows[..|rows|] == rows;
  }

  // ---------- the rows of one run ----------

  function OfRun(landed: seq<Landed>, run: string): (ls: seq<Landed>)
    ensures forall i :: 0 <= i < |ls| ==> ls[i].row.run == run
  {
    if landed == [] then []
    else
      var before := OfRun(landed[..|landed| - 1], run);
      if landed[|landed| - 1].row.run == run then before + [landed[|landed| - 1]] else before
  }

  function Rows(ls: seq<Landed>): seq<Row> { seq(|ls|, i requires 0 <= i < |ls| => ls[i].row) }

  ghost predicate Linked(ls: seq<Landed>) { forall i :: 0 <= i < |ls| ==> LinkOk(ls, i) }

  /** The rows of a run are linked among themselves: no base lies in another run. */
  lemma {:induction false} RunIsLinked(landed: seq<Landed>, run: string)
    requires Linked(landed)
    ensures Linked(OfRun(landed, run))
    ensures forall j :: 0 <= j < |landed| && landed[j].row.run == run ==> landed[j] in OfRun(landed, run)
    ensures forall l :: l in OfRun(landed, run) ==> l in landed
    decreases |landed|
  {
    if landed != [] {
      var before, last := landed[..|landed| - 1], landed[|landed| - 1];
      PrefixLinked(landed, |before|);
      RunIsLinked(before, run);
      var ls := OfRun(before, run);
      if last.row.run == run {
        assert LinkOk(landed, |before|);
        forall i | 0 <= i < |ls| ensures LinkOk(ls + [last], i) { LinkStays(ls, last, i); }
        if last.row.baseSeq != 0 {
          var j :| 0 <= j < |before| && Extends(landed[j], last);
          assert landed[j] == before[j] && before[j].row.run == run;
          assert before[j] in ls;
          var k :| 0 <= k < |ls| && ls[k] == landed[j];
          assert Extends((ls + [last])[k], last);
        }
        forall k | 0 <= k < |ls| ensures ls[k].row.seq_ < last.row.seq_ {
          assert ls[k] in ls && ls[k] in before;
          var j :| 0 <= j < |before| && before[j] == ls[k];
          assert landed[j].row.run == run;
        }
        assert LinkOk(ls + [last], |ls|);
      }
    }
  }

  lemma PrefixLinked(landed: seq<Landed>, n: nat)
    requires Linked(landed) && n <= |landed|
    ensures Linked(landed[..n])
  {
    forall i | 0 <= i < n ensures LinkOk(landed[..n], i) {
      assert LinkOk(landed, i);
      if landed[i].row.baseSeq != 0 {
        var j :| 0 <= j < i && Extends(landed[j], landed[i]);
        assert Extends(landed[..n][j], landed[..n][i]);
      }
    }
  }

  // ---------- what is rebuilt ----------

  /** No delta in the run leans on a row whose context was dropped. */
  ghost predicate NoDroppedBase(ls: seq<Landed>) {
    forall i, j :: 0 <= j < i < |ls| && ls[i].row.baseSeq == ls[j].row.seq_ ==> !ls[j].dropped
  }

  /** No row of the run had its context dropped. */
  ghost predicate NoneDropped(ls: seq<Landed>) { forall i :: 0 <= i < |ls| ==> !ls[i].dropped }

  /** Call i comes back with messages that sameMessage cannot tell from those that were sent. */
  ghost predicate ReplaysAsCompared(ls: seq<Landed>, i: nat)
    requires i < |ls|
  {
    Same(Replay(Rows(ls))[i], ls[i].call.messages)
  }

  /** Call i comes back exactly as it was sent, the fields included that sameMessage does not look at. */
  ghost predicate ReplaysExactly(ls: seq<Landed>, i: nat)
    requires i < |ls|
  {
    Replay(Rows(ls))[i] == ls[i].call.messages
  }

  /** The prefix l keeps of base is the one l was sent with, not just one that compares the same. */
  predicate KeepsWhatWasSent(base: Landed, l: Landed) {
    var keep := l.row.keepPrefix;
    0 <= keep <= |base.call.messages| && keep <= |l.call.messages|
    && base.call.messages[..keep] == l.call.messages[..keep]
  }

  ghost predicate KeepsExactly(ls: seq<Landed>) {
    forall i, j :: 0 <= j < i < |ls| && ls[i].row.baseSeq == ls[j].row.seq_ ==> KeepsWhatWasSent(ls[j], ls[i])
  }

  lemma {:induction false} ContextsAreKept(ls: seq<Landed>, i: nat)
    requires Linked(ls) && i < |ls| && (forall k :: 0 <= k < |ls| ==> ls[k].row.run == ls[0].row.run)
    ensures ls[i].row.seq_ in Contexts(Rows(ls)) && Contexts(Rows(ls))[ls[i].row.seq_] == Replay(Rows(ls))[i]
    decreases |ls|
  {
    var before, last := ls[..|ls| - 1], ls[|ls| - 1];
    assert Rows(ls)[..|ls| - 1] == Rows(before);
    assert LinkOk(ls, |ls| - 1);
    if i < |before| {
      PrefixLinked(ls, |before|);
      ContextsAreKept(before, i);
    }
  }

  /** One row over a base that was rebuilt well. */
  lemma RebuildsOver(base: Landed, l: Landed, context: seq<Message>)
    requires Extends(base, l) && Same(context, base.call.messages)
    ensures Same(context[..Clamp(l.row.keepPrefix, |context|)] + l.row.delta, l.call.messages)
  {
  }

  /** The calls whose context was stored are rebuilt as sameMessage compares, provided no delta leans
      on a dropped one. */
  lemma {:induction false} ReplayRebuilds(ls: seq<Landed>)
    requires Linked(ls) && NoDroppedBase(ls)
    requires forall k :: 0 <= k < |ls| ==> ls[k].row.run == ls[0].row.run
    ensures forall i :: 0 <= i < |ls| && !ls[i].dropped ==> ReplaysAsCompared(ls, i)
    decreases |ls|
  {
    if ls != [] {
      var before, l := ls[..|ls| - 1], ls[|ls| - 1];
      assert Rows(ls)[..|before|] == Rows(before) && Rows(ls)[|before|] == l.row;
      PrefixLinked(ls, |before|);
      ReplayRebuilds(before);
      assert LinkOk(ls, |before|);
      if l.row.baseSeq != 0 {
        var j :| 0 <= j < |before| && Extends(ls[j], l);
        ContextsAreKept(before, j);
        assert ls[j] == before[j] && !ls[j].dropped;
        assert ReplaysAsCompared(before, j);
        RebuildsOver(ls[j], l, Replay(Rows(before))[j]);
      }
      forall i | 0 <= i < |before| && !ls[i].dropped ensures ReplaysAsCompared(ls, i) {
        assert ReplaysAsCompared(before, i);
      }
    }
  }

  /** A delta over a dropped context is rebuilt too short: the base comes back empty. */
  lemma DroppedBaseLosesPrefix(ls: seq<Landed>, i: nat, j: nat)
    requires Linked(ls) && j < i < |ls| && ls[i].row.baseSeq == ls[j].row.seq_ && ls[j].dropped
    requires forall k :: 0 <= k < |ls| ==> ls[k].row.run == ls[0].row.run
    ensures Replay(Rows(ls))[i] == ls[i].row.delta && |ls[i].row.delta| < |ls[i].call.messages|
    ensures !ls[i].dropped && !ReplaysAsCompared(ls, i)
    decreases |ls|
  {
    var before := ls[..|ls| - 1];
    assert Rows(ls)[..|before|] == Rows(before);
    if i < |before| {
      PrefixLinked(ls, |before|);
      DroppedBaseLosesPrefix(before, i, j);
    } else {
      assert LinkOk(ls, i) && LinkOk(ls, j);
      var b :| 0 <= b < i && Extends(ls[b], ls[i]);
      assert b == j by { SeqsAreDistinct(ls, b, j); }
      PrefixLinked(ls, |before|);
      ContextsAreKept(before, j);
      DroppedIsEmpty(before, j);
    }
  }

  lemma SeqsAreDistinct(ls: seq<Landed>, a: nat, b: nat)
    requires Linked(ls) && a < |ls| && b < |ls| && ls[a].row.seq_ == ls[b].row.seq_ && ls[a].row.run == ls[b].row.run
    ensures a == b
  {
    assert LinkOk(ls, a) && LinkOk(ls, b);
  }

  /** A dropped call itself comes back empty, which is never what was sent: some message did not marshal. */
  lemma {:induction false} DroppedIsEmpty(ls: seq<Landed>, j: nat)
    requires Linked(ls) && j < |ls| && ls[j].dropped
    ensures Replay(Rows(ls))[j] == [] && !ReplaysAsCompared(ls, j)
    decreases |ls|
  {
    var before := ls[..|ls| - 1];
    assert Rows(ls)[..|before|] == Rows(before);
    assert LinkOk(ls, j);
    if j < |before| {
      PrefixLinked(ls, |before|);
      DroppedIsEmpty(before, j);
    }
  }

  /** So every call of a run comes back as sameMessage compares exactly when none was dropped ... */
  lemma AllReplayExactlyWhen(ls: seq<Landed>)
    requires Linked(ls) && forall k :: 0 <= k < |ls| ==> ls[k].row.run == ls[0].row.run
    ensures (forall i :: 0 <= i < |ls| ==> ReplaysAsCompared(ls, i)) <==> NoneDropped(ls)
  {
    hide Replay, LinkOk;
    if NoneDropped(ls) { ReplayRebuilds(ls); }
    forall i | 0 <= i < |ls| && ls[i].dropped ensures !ReplaysAsCompared(ls, i) { DroppedIsEmpty(ls, i); }
  }

  /** ... and the others do so exactly when none of them leans on a dropped one. */
  lemma OthersReplayExactlyWhen(ls: seq<Landed>)
    requires Linked(ls) && forall k :: 0 <= k < |ls| ==> ls[k].row.run == ls[0].row.run
    ensures (forall i :: 0 <= i < |ls| && !ls[i].dropped ==> ReplaysAsCompared(ls, i)) <==> NoDroppedBase(ls)
  {
    if NoDroppedBase(ls) {
      ReplayRebuilds(ls);
    } else {
      var i, j :| 0 <= j < i < |ls| && ls[i].row.baseSeq == ls[j].row.seq_ && ls[j].dropped;
      DroppedBaseLosesPrefix(ls, i, j);
    }
  }

  // ---------- when the replay is exact ----------

  /** The pass rebuilds row i over the contexts of the rows before it. */
  lemma {:induction false} ReplayAt(rows: seq<Row>, i: nat)
    requires i < |rows|
    ensures Replay(rows)[i] == Rebuild(rows[i], Contexts(rows[..i]))
    decreases |rows|
  {
    var before := rows[..|rows| - 1];
    if i < |before| {
      ReplayAt(before, i);
      assert before[..i] == rows[..i];
    }
  }

  /** A delta is put behind what the base was rebuilt to, as far as it is kept. */
  lemma ReplayOver(ls: seq<Landed>, i: nat, j: nat)
    requires Linked(ls) && j < i < |ls| && ls[i].row.baseSeq == ls[j].row.seq_
    requires forall k :: 0 <= k < |ls| ==> ls[k].row.run == ls[0].row.run
    ensures Extends(ls[j], ls[i])
    ensures var base := Replay(Rows(ls))[j];
            Replay(Rows(ls))[i] == base[..Clamp(ls[i].row.keepPrefix, |base|)] + ls[i].row.delta
  {
    hide Replay, Contexts;
    assert LinkOk(ls, i) && LinkOk(ls, j);
    var b :| 0 <= b < i && Extends(ls[b], ls[i]);
    SeqsAreDistinct(ls, b, j);
    var before := ls[..i];
    assert Rows(ls)[..i] == Rows(before);
    PrefixLinked(ls, i);
    ContextsAreKept(before, j);
    ReplayAt(Rows(ls), i);
    ReplayAt(Rows(ls), j);
    ReplayAt(Rows(before), j);
    assert Rows(ls)[..j] == Rows(before)[..j];
  }

  /** Over a base that came back exactly, a delta comes back exactly when it keeps what was sent. */
  lemma ExactOver(base: Landed, l: Landed)
    requires Extends(base, l)
    ensures base.call.messages[..Clamp(l.row.keepPrefix, |base.call.messages|)] + l.row.delta == l.call.messages
       <==> KeepsWhatWasSent(base, l)
  {
    var keep, ms := l.row.keepPrefix, l.call.messages;
    var whole := base.call.messages[..keep] + ms[keep..];
    assert whole[..keep] == base.call.messages[..keep] && whole[keep..] == ms[keep..];
    assert ms == ms[..keep] + ms[keep..];
  }

  lemma {:induction false} KeptCallIsExact(ls: seq<Landed>, i: nat)
    requires Linked(ls) && NoDroppedBase(ls) && KeepsExactly(ls) && i < |ls| && !ls[i].dropped
    requires forall k :: 0 <= k < |ls| ==> ls[k].row.run == ls[0].row.run
    ensures ReplaysExactly(ls, i)
    decreases i
  {
    hide Replay;
    assert LinkOk(ls, i);
    if ls[i].row.baseSeq == 0 {
      ReplayAt(Rows(ls), i);
    } else {
      var j :| 0 <= j < i && Extends(ls[j], ls[i]);
      KeptCallIsExact(ls, j);
      ReplayOver(ls, i, j);
      ExactOver(ls[j], ls[i]);
    }
  }

  /** The calls that were not dropped come back exactly as they were sent exactly when no delta leans
      on a dropped row or keeps a message that only compares the same. */
  lemma OthersExactlyWhen(ls: seq<Landed>)
    requires Linked(ls) && forall k :: 0 <= k < |ls| ==> ls[k].row.run == ls[0].row.run
    ensures (forall i :: 0 <= i < |ls| && !ls[i].dropped ==> ReplaysExactly(ls, i)) <==> NoDroppedBase(ls) && KeepsExactly(ls)
  {
    hide Replay, LinkOk;
    if NoDroppedBase(ls) && KeepsExactly(ls) {
      forall i | 0 <= i < |ls| && !ls[i].dropped ensures ReplaysExactly(ls, i) { KeptCallIsExact(ls, i); }
    }
    if forall i :: 0 <= i < |ls| && !ls[i].dropped ==> ReplaysExactly(ls, i) {
      forall i | 0 <= i < |ls| && !ls[i].dropped ensures ReplaysAsCompared(ls, i) { assert ReplaysExactly(ls, i); }
      OthersReplayExactlyWhen(ls);
      forall i, j | 0 <= j < i < |ls| && ls[i].row.baseSeq == ls[j].row.seq_ ensures KeepsWhatWasSent(ls[j], ls[i]) {
        ReplayOver(ls, i, j);
        DeltaIsNotDropped(ls, i, j);
        assert ReplaysExactly(ls, i) && ReplaysExactly(ls, j);
        ExactOver(ls[j], ls[i]);
      }
    }
  }

  lemma DeltaIsNotDropped(ls: seq<Landed>, i: nat, j: nat)
    requires Linked(ls) && j < i < |ls| && ls[i].row.baseSeq == ls[j].row.seq_
    ensures !ls[i].dropped
  {
    assert LinkOk(ls, i) && LinkOk(ls, j);
  }

  /** And every call does exactly when, besides, none was dropped. */
  lemma AllExactlyWhen(ls: seq<Landed>)
    requires Linked(ls) && forall k :: 0 <= k < |ls| ==> ls[k].row.run == ls[0].row.run
    ensures (forall i :: 0 <= i < |ls| ==> ReplaysExactly(ls, i)) <==> NoneDropped(ls) && KeepsExactly(ls)
  {
    hide Replay, LinkOk;
    OthersExactlyWhen(ls);
    forall i | 0 <= i < |ls| && ls[i].dropped ensures !ReplaysExactly(ls, i) { DroppedIsEmpty(ls, i); }
  }

  // ---------- over every interleaving ----------

  /** Whatever calls overlap, fail to insert or fall out of the cache: when every message list
      marshals, each run replays, in order, to requests that sameMessage cannot tell from those sent. */
  lemma TraceRoundTrip(ws: seq<World>, es: seq<Event>, k: nat, run: string)
    requires Behaviour(ws, es) && k < |ws|
    requires forall l :: l in OfRun(ws[k].landed, run) ==> Marshals(l.call.messages)
    ensures var ls := OfRun(ws[k].landed, run);
            forall i :: 0 <= i < |ls| ==> Same(Replay(Rows(ls))[i], ls[i].call.messages)
  {
    var ls := OfRun(ws[k].landed, run);
    BehaviourKeepsInv(ws, es, k);
    RunIsLinked(ws[k].landed, run);
    forall i | 0 <= i < |ls| ensures !ls[i].dropped { assert LinkOk(ls, i) && ls[i] in ls; }
    AllReplayExactlyWhen(ls);
    forall i | 0 <= i < |ls| ensures Same(Replay(Rows(ls))[i], ls[i].call.messages) { assert ReplaysAsCompared(ls, i); }
  }

  /** The general case, up to what sameMessage compares, for every run of every behaviour. */
  lemma TraceRoundTripExactlyWhen(ws: seq<World>, es: seq<Event>, k: nat, run: string)
    requires Behaviour(ws, es) && k < |ws|
    ensures var ls := OfRun(ws[k].landed, run);
            && ((forall i :: 0 <= i < |ls| ==> ReplaysAsCompared(ls, i)) <==> NoneDropped(ls))
            && ((forall i :: 0 <= i < |ls| && !ls[i].dropped ==> ReplaysAsCompared(ls, i)) <==> NoDroppedBase(ls))
  {
    BehaviourKeepsInv(ws, es, k);
    RunIsLinked(ws[k].landed, run);
    AllReplayExactlyWhen(OfRun(ws[k].landed, run));
    OthersReplayExactlyWhen(OfRun(ws[k].landed, run));
  }

  /** When reconstruction is exact, for every run of every behaviour: all calls come back as they were
      sent exactly when no delta was dropped and none keeps a message that only compares the same; and
      the calls that were not dropped do so exactly when no delta leans on a dropped row or keeps such
      a message. */
  lemma ReconstructionIsExactWhen(ws: seq<World>, es: seq<Event>, k: nat, run: string)
    requires Behaviour(ws, es) && k < |ws|
    ensures var ls := OfRun(ws[k].landed, run);
            && ((forall i :: 0 <= i < |ls| ==> Replay(Rows(ls))[i] == ls[i].call.messages)
                <==> NoneDropped(ls) && KeepsExactly(ls))
            && ((forall i :: 0 <= i < |ls| && !ls[i].dropped ==> Replay(Rows(ls))[i] == ls[i].call.messages)
                <==> NoDroppedBase(ls) && KeepsExactly(ls))
  {
    hide Replay, OfRun;
    var ls := OfRun(ws[k].landed, run);
    BehaviourKeepsInv(ws, es, k);
    RunIsLinked(ws[k].landed, run);
    AllExactlyWhen(ls);
    OthersExactlyWhen(ls);
    assert forall i :: 0 <= i < |ls| ==> (ReplaysExactly(ls, i) <==> Replay(Rows(ls))[i] == ls[i].call.messages);
  }

  /** How many rows must be read to rebuild row i, the keyframe included. */
  lemma {:induction false} ChainsAreBounded(ws: seq<World>, es: seq<Event>, k: nat, i: nat)
    requires Behaviour(ws, es) && k < |ws| && i < |ws[k].landed|
    ensures Chain(ws[k].landed, i, FORCED_KEYFRAME_INTERVAL + 1)
  {
    BehaviourKeepsInv(ws, es, k);
    ChainWithin(ws[k].landed, i);
  }

  /** Row i is a keyframe, or leans on a row that is at most n - 1 links away from one. */
  ghost predicate Chain(landed: seq<Landed>, i: nat, n: nat)
    requires i < |landed|
    decreases n
  {
    n > 0 && (landed[i].row.baseSeq == 0
              || exists j :: 0 <= j < i && Extends(landed[j], landed[i]) && Chain(landed, j, n - 1))
  }

  lemma {:induction false} ChainWithin(landed: seq<Landed>, i: nat)
    requires Linked(landed) && i < |landed|
    ensures landed[i].sinceKey <= FORCED_KEYFRAME_INTERVAL && Chain(landed, i, landed[i].sinceKey + 1)
    ensures Chain(landed, i, FORCED_KEYFRAME_INTERVAL + 1)
    decreases i
  {
    assert LinkOk(landed, i);
    if landed[i].row.baseSeq != 0 {
      var j :| 0 <= j < i && Extends(landed[j], landed[i]);
      ChainWithin(landed, j);
      assert Chain(landed, i, landed[i].sinceKey + 1);
    }
    ChainGrows(landed, i, landed[i].sinceKey + 1, FORCED_KEYFRAME_INTERVAL + 1);
  }

  lemma {:induction false} ChainGrows(landed: seq<Landed>, i: nat, m: nat, n: nat)
    requires i < |landed| && m <= n && Chain(landed, i, m)
    ensures Chain(landed, i, n)
    decreases m
  {
    if landed[i].row.baseSeq != 0 {
      var j :| 0 <= j < i && Extends(landed[j], landed[i]) && Chain(landed, j, m - 1);
      ChainGrows(landed, j, m - 1, n - 1);
    }
  }

  // ---------- where replay falls short ----------

  function CallOf(messages: seq<Message>): Call { Call("r", "", messages) }

  /** The row of a first call and of a second one over it, in one session of the run "r". */
  function FirstRow(a: seq<Message>): Landed { LandedRow(InFlight(CallOf(a), NO_CONTEXT), 1) }

  function FirstContext(a: seq<Message>): Context { Remembered(NO_CONTEXT, CallOf(a), 1) }

  function SecondRow(a: seq<Message>, b: seq<Message>): Landed { LandedRow(InFlight(CallOf(b), FirstContext(a)), 2) }

  function Worlds(a: seq<Message>, b: seq<Message>): seq<World> {
    var slot := Slot(KeyOf(CallOf(a)), FirstContext(a));
    [ EMPTY,
      World({}, {InFlight(CallOf(a), NO_CONTEXT)}, {}, []),
      World({}, {}, {slot}, [FirstRow(a)]),
      World({slot}, {}, {}, [FirstRow(a)]),
      World({slot}, {InFlight(CallOf(b), FirstContext(a))}, {}, [FirstRow(a)]),
      World({slot}, {}, {Slot(KeyOf(CallOf(b)), Remembered(FirstContext(a), CallOf(b), 2))}, [FirstRow(a), SecondRow(a, b)]) ]
  }

  function Events(a: seq<Message>, b: seq<Message>): seq<Event> {
    var slot := Slot(KeyOf(CallOf(a)), FirstContext(a));
    [ Begun(CallOf(a), NO_CONTEXT), Inserted(InFlight(CallOf(a), NO_CONTEXT)), Cached(slot),
      Begun(CallOf(b), FirstContext(a)), Inserted(InFlight(CallOf(b), FirstContext(a))) ]
  }

  lemma NumbersAreConsecutive(a: seq<Message>)
    ensures RootRun("r") == "r" && NextSeq([], "r") == 1 && NextSeq([FirstRow(a)], "r") == 2
  {
    assert "r"[1..] == "";
    assert [FirstRow(a)][..0] == [];
  }

  /** Two calls, one after the other. */
  lemma TwoCallsHappen(a: seq<Message>, b: seq<Message>)
    ensures Behaviour(Worlds(a, b), Events(a, b))
    ensures OfRun(Worlds(a, b)[5].landed, "r") == [FirstRow(a), SecondRow(a, b)]
  {
    NumbersAreConsecutive(a);
    hide RowOf, Remembered, NextSeq, Drops;
    var ws, es := Worlds(a, b), Events(a, b);
    var first, second := FirstRow(a), SecondRow(a, b);
    var slot := Slot(KeyOf(CallOf(a)), FirstContext(a));
    assert Next(ws[0], es[0], ws[1]);
    assert [] + [first] == [first];
    assert Next(ws[1], es[1], ws[2]);
    assert OtherSlots({}, slot.key) + {slot} == {slot};
    assert Next(ws[2], es[2], ws[3]);
    assert Next(ws[3], es[3], ws[4]);
    assert [first] + [second] == [first, second];
    assert Next(ws[4], es[4], ws[5]);
    RunOfTwo(a, b);
  }

  lemma RunOfTwo(a: seq<Message>, b: seq<Message>)
    ensures OfRun([FirstRow(a), SecondRow(a, b)], "r") == [FirstRow(a), SecondRow(a, b)]
  {
    NumbersAreConsecutive(a);
    var ls := [FirstRow(a), SecondRow(a, b)];
    assert ls[..1] == [FirstRow(a)] && [FirstRow(a)][..0] == [];
    assert OfRun([FirstRow(a)], "r") == [FirstRow(a)];
  }

  const PLAIN := Message("x", "", true)
  const OTHER := Message("y", "", true)
  const BAD := Message("z", "", false)

  /** Two calls of one session, the first with a message that does not marshal and the second without
      it: the second, which marshals throughout, is stored as a delta over the row whose context was
      dropped, and replays without the message the two share. */
  lemma DroppedContextCorruptsTheNext()
    ensures var a, b := [PLAIN, BAD], [PLAIN, OTHER];
            var ls := OfRun(Worlds(a, b)[5].landed, "r");
            && Behaviour(Worlds(a, b), Events(a, b))
            && |ls| == 2 && ls[1].call.messages == b && Marshals(b)
            && Replay(Rows(ls))[1] == [OTHER] && !ReplaysAsCompared(ls, 1)
  {
    var a, b := [PLAIN, BAD], [PLAIN, OTHER];
    var ls := [FirstRow(a), SecondRow(a, b)];
    hide FirstRow, SecondRow, Replay, LinkOk;
    TwoRowsAreLinked(a, b);
    assert !a[1].marshals;
    assert b[1..] == [OTHER];
    LongestIsUnique(a, b, 1, CommonPrefix(a, b));
    RowsOfTwo(a, b, 1);
    DroppedBaseLosesPrefix(ls, 1, 0);
  }

  lemma TwoRowsAreLinked(a: seq<Message>, b: seq<Message>)
    ensures var ls := [FirstRow(a), SecondRow(a, b)];
            && Behaviour(Worlds(a, b), Events(a, b)) && OfRun(Worlds(a, b)[5].landed, "r") == ls
            && Linked(ls) && ls[0].row.run == ls[1].row.run == "r"
  {
    hide FirstRow, SecondRow, LinkOk, FirstContext;
    var ls := [FirstRow(a), SecondRow(a, b)];
    TwoCallsHappen(a, b);
    BehaviourKeepsInv(Worlds(a, b), Events(a, b), 5);
    RunIsLinked(Worlds(a, b)[5].landed, "r");
    assert ls[0] in OfRun(Worlds(a, b)[5].landed, "r") && ls[1] in OfRun(Worlds(a, b)[5].landed, "r");
  }

  /** What the two rows hold when the second call keeps so many messages of the first. */
  lemma RowsOfTwo(a: seq<Message>, b: seq<Message>, keep: nat)
    requires CommonPrefix(a, b) == keep > 0 && Marshals(b[keep..])
    ensures var first, second := FirstRow(a), SecondRow(a, b);
            && first.call.messages == a && second.call.messages == b
            && first.dropped == !Marshals(a) && !second.dropped
            && first.row.baseSeq == 0 && first.row.seq_ == second.row.baseSeq == 1
            && first.row.delta == (if Marshals(a) then a else [])
            && second.row.keepPrefix == keep && second.row.delta == b[keep..]
  {
    hide CommonPrefix;
  }

  const ONE_IMAGE := Message("x", "image 1", true)
  const ANOTHER_IMAGE := Message("x", "image 2", true)

  /** Two calls that differ only in what sameMessage does not compare: nothing is dropped, the second
      row keeps the whole of the first, and the second call comes back with the first one's message. */
  lemma UncomparedFieldsAreLost()
    ensures var a, b := [ONE_IMAGE], [ANOTHER_IMAGE];
            var ls := OfRun(Worlds(a, b)[5].landed, "r");
            && Behaviour(Worlds(a, b), Events(a, b))
            && |ls| == 2 && ls[1].call.messages == b && NoneDropped(ls)
            && Replay(Rows(ls))[1] == a != b
  {
    var a, b := [ONE_IMAGE], [ANOTHER_IMAGE];
    var ls := [FirstRow(a), SecondRow(a, b)];
    hide FirstRow, SecondRow, Replay, LinkOk;
    TwoRowsAreLinked(a, b);
    LongestIsUnique(a, b, 1, CommonPrefix(a, b));
    assert b[1..] == [];
    RowsOfTwo(a, b, 1);
    ReplayOver(ls, 1, 0);
    ReplayAt(Rows(ls), 0);
    assert a[..1] + [] == a && a[0] != b[0];
  }
}
