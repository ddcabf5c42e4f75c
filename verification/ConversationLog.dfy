/** The stored conversation: an append-only tree of entries with a movable leaf
    (internal/dataplane/store/agent_conversations.go), and every way the runtime writes to it.
    Entry ids are drawn by the database, so a step is given one that is not in use. */
module ConversationLog {
  import opened Wrappers
  import opened Space
  import opened Transcript
  import opened History
  import opened Anchors
  import opened CompactionPlan
  import opened Commit
  import opened ExactlyOnce
  import opened FoldOutcomes

  // ---------- the tree ----------

  datatype Node = Node(entry: Entry, parent: string)

  predicate Contains(log: seq<Node>, id: string) { exists k :: 0 <= k < |log| && log[k].entry.id == id }

  /** "" is the root above every entry. */
  predicate Known(log: seq<Node>, id: string) { id == "" || Contains(log, id) }

  predicate FreshId(log: seq<Node>, id: string) { id != "" && !Contains(log, id) }

  /** Every entry was appended under a fresh id below an entry already there. */
  predicate WellFormed(log: seq<Node>) {
    log == [] ||
    var last, before := log[|log| - 1], log[..|log| - 1];
    WellFormed(before) && FreshId(before, last.entry.id) && Known(before, last.parent)
  }

  /** The entries from the root down to id. */
  function Path(log: seq<Node>, id: string): seq<Entry> {
    if log == [] then []
    else
      var last, before := log[|log| - 1], log[..|log| - 1];
      if last.entry.id == id then Path(before, last.parent) + [last.entry] else Path(before, id)
  }

  lemma {:induction false} PathIsDistinct(log: seq<Node>, id: string)
    requires WellFormed(log)
    ensures DistinctIds(Path(log, id))
    ensures forall e :: e in Path(log, id) ==> Contains(log, e.id)
    decreases |log|
  {
    if log != [] {
      var last, before := log[|log| - 1], log[..|log| - 1];
      PathIsDistinct(before, last.parent);
      PathIsDistinct(before, id);
      forall e | e in Path(log, id) ensures Contains(log, e.id) {
        if e != last.entry || last.entry.id != id {
          assert Contains(before, e.id);
          var k :| 0 <= k < |before| && before[k].entry.id == e.id;
          assert log[k].entry.id == e.id;
        }
      }
      if last.entry.id == id {
        var up := Path(before, last.parent);
        forall k | 0 <= k < |up| ensures up[k].id != id {
          assert up[k] in up;
        }
      }
    }
  }

  /** The path to an entry ends in it, and each of its entries was stored below the one before. */
  lemma {:induction false} PathFollowsParents(log: seq<Node>, id: string)
    requires WellFormed(log) && Known(log, id)
    ensures var path := Path(log, id);
            && (id == "" <==> path == []) && (path != [] ==> path[|path| - 1].id == id)
            && forall k :: 0 <= k < |path| ==> StoredBelow(log, path, k)
    decreases |log|
  {
    if log != [] {
      var last, before := log[|log| - 1], log[..|log| - 1];
      var up := Path(before, if last.entry.id == id then last.parent else id);
      if last.entry.id == id {
        PathFollowsParents(before, last.parent);
        assert StoredBelow(log, up + [last.entry], |up|) by { assert log[|log| - 1] == last; }
      } else {
        if id != "" {
          var k :| 0 <= k < |log| && log[k].entry.id == id;
          assert before[k].entry.id == id;
        }
        PathFollowsParents(before, id);
      }
      forall k | 0 <= k < |up| ensures StoredBelow(log, Path(log, id), k) {
        assert StoredBelow(before, up, k);
        var j :| 0 <= j < |before| && before[j] == Node(up[k], if k == 0 then "" else up[k - 1].id);
        assert log[j] == before[j];
      }
    }
  }

  /** Entry k of the path is in the log, below entry k - 1 or the root. */
  predicate StoredBelow(log: seq<Node>, path: seq<Entry>, k: nat)
    requires k < |path|
  {
    exists j :: 0 <= j < |log| && log[j] == Node(path[k], if k == 0 then "" else path[k - 1].id)
  }

  lemma Grow(log: seq<Node>, node: Node, id: string)
    requires WellFormed(log) && FreshId(log, node.entry.id) && Known(log, node.parent)
    ensures WellFormed(log + [node])
    ensures Path(log + [node], node.entry.id) == Path(log, node.parent) + [node.entry]
    ensures id != node.entry.id ==> Path(log + [node], id) == Path(log, id)
    ensures Known(log + [node], id) <==> id == node.entry.id || Known(log, id)
  {
    assert (log + [node])[..|log|] == log;
    forall i ensures Contains(log + [node], i) <==> i == node.entry.id || Contains(log, i) {
      if i == node.entry.id {
        assert (log + [node])[|log|].entry.id == i;
      }
      if k :| 0 <= k < |log| && log[k].entry.id == i {
        assert (log + [node])[k].entry.id == i;
      }
    }
  }

  // ---------- the store ----------

  class Store {
    var log: seq<Node>
    var leaf: string

    constructor ()
      ensures log == [] && leaf == "" && Valid()
    {
      log, leaf := [], "";
    }

    ghost predicate Valid()
      reads this
    {
      WellFormed(log) && Known(log, leaf)
    }

    /** PathToLeaf: up the parents from the leaf. */
    method PathToLeaf() returns (path: seq<Entry>)
      requires Valid()
      ensures path == Path(log, leaf)
    {
      path := [];
      var at, i := leaf, |log|;
      assert log[..i] == log;
      while i > 0
        invariant 0 <= i <= |log|
        invariant Path(log[..i], at) + path == Path(log, leaf)
      {
        i := i - 1;
        assert log[..i + 1][..i] == log[..i];
        if log[i].entry.id == at {
          path := [log[i].entry] + path;
          at := log[i].parent;
        }
      }
    }

    /** Insert below the leaf and advance it, in one transaction. */
    method Append(id: string, kind: Kind)
      requires Valid() && FreshId(log, id)
      modifies this
      ensures Valid() && log == old(log) + [Node(Entry(id, kind), old(leaf))] && leaf == id
    {
      Grow(log, Node(Entry(id, kind), leaf), id);
      log, leaf := log + [Node(Entry(id, kind), leaf)], id;
    }

    /** The same, but only while the leaf is the one the caller saw. */
    method AppendAtLeaf(id: string, kind: Kind, expected: string) returns (ok: bool)
      requires Valid() && FreshId(log, id)
      modifies this
      ensures Valid() && (ok <==> old(leaf) == expected)
      ensures ok ==> log == old(log) + [Node(Entry(id, kind), expected)] && leaf == id
      ensures !ok ==> log == old(log) && leaf == old(leaf)
    {
      if leaf != expected { return false; }
      Append(id, kind);
      return true;
    }

    method SetLeaf(target: string) returns (ok: bool)
      requires Valid()
      modifies this
      ensures Valid() && log == old(log) && (ok <==> Known(log, target))
      ensures leaf == if ok then target else old(leaf)
    {
      ok := target == "" || exists k :: 0 <= k < |log| && log[k].entry.id == target;
      if ok { leaf := target; }
    }

    /** A finished run publishes its turn: nothing changes unless every guard passes, and then the
        log has grown by the delta alone. */
    method CommitTurn(id: string, base: Folded, result: RunResult) returns (r: Result<bool, CommitError>)
      requires Valid() && FreshId(log, id)
      modifies this
      ensures Valid()
      ensures r.Failure? || !r.value ==> log == old(log) && leaf == old(leaf)
      ensures var path := old(Path(log, leaf));
              match Prepare(path, base, result)
              case Failure(err) => r == Failure(err)
              case Success(None) => r == Success(false)
              case Success(Some(kind)) =>
                r == Success(true) && log == old(log) + [Node(Entry(id, kind), old(leaf))] && leaf == id
    {
      var path := PathToLeaf();
      var prepared := PrepareTurn(path, base, result);
      if prepared.Failure? { return Failure(prepared.error); }
      if prepared.value.None? { return Success(false); }
      var ok := AppendAtLeaf(id, prepared.value.value, leaf);
      return Success(true);
    }

    /** One compaction attempt with the summary the summariser returned, None when it failed.  It
        writes a checkpoint exactly when a cut is planned and the summary says something. */
    method Compact(id: string, window: int, force: bool, weigh: Message -> nat, budgets: Budgets,
                   summarised: Option<string>) returns (done: bool, ghost plan: Plan)
      requires Valid() && FreshId(log, id)
      modifies this
      ensures Valid()
      ensures !done ==> log == old(log) && leaf == old(leaf)
      ensures done ==> summarised.Some?
      ensures done ==>
                var path, summary := old(Path(log, leaf)), Trim(summarised.value);
                && Checkpointed(path, window, force, weigh, budgets, plan, summary)
                && log == old(log) + [Node(Entry(id, Checkpoint(Fold(path).value, plan.cut, summary)), old(leaf))]
                && leaf == id
      ensures done ==>
                && Fold(Path(log, leaf)).Success?
                && Summarises(old(Fold(Path(log, leaf))).value, plan.cut, id, Trim(summarised.value), Fold(Path(log, leaf)).value)
      ensures !done ==>
                summarised.None? || Trim(summarised.value) == "" || !CutPlanned(old(Path(log, leaf)), window, force, weigh, budgets)
    {
      hide Fold, Summarises, Path;
      plan := Plan(0, 0);
      var path := PathToLeaf();
      var folded := FoldHistory(path);
      if folded.Failure? { return false, plan; }
      var planned := PlanCompaction(folded.value, window, force, weigh, budgets);
      if planned.Failure? || planned.value.cut == 0 {
        assert !CutPlanned(path, window, force, weigh, budgets);
        return false, plan;
      }
      if summarised.None? { return false, plan; }
      var summary := Trim(summarised.value);
      if summary == "" { return false, plan; }
      TrimmedIsBlankOrNotEmpty(summarised.value);
      plan := planned.value;
      PathIsDistinct(log, leaf);
      LeafIsLast(path);
      LeafOfPath(log, leaf);
      CheckpointSummarises(path, window, force, weigh, budgets, plan, id, summary);
      Grow(log, Node(Entry(id, Checkpoint(folded.value, plan.cut, summary)), leaf), id);
      done := AppendAtLeaf(id, Checkpoint(folded.value, planned.value.cut, summary), folded.value.leafId);
    }
  }

  /** The path folds and the planner's answer for it is a cut. */
  ghost predicate CutPlanned(path: seq<Entry>, window: int, force: bool, weigh: Message -> nat, budgets: Budgets) {
    Fold(path).Success?
    && forall r :: Planned(Fold(path).value, window, force, weigh, budgets, r) ==> r.Success? && r.value.cut != 0
  }

  /** A checkpoint the compactor may write for a path. */
  ghost predicate Checkpointed(path: seq<Entry>, window: int, force: bool, weigh: Message -> nat, budgets: Budgets,
                               plan: Plan, summary: string)
  {
    && Fold(path).Success? && !Blank(summary) && plan.cut != 0
    && Planned(Fold(path).value, window, force, weigh, budgets, Success(plan))
  }

  lemma CheckpointSummarises(path: seq<Entry>, window: int, force: bool, weigh: Message -> nat, budgets: Budgets,
                             plan: Plan, id: string, summary: string)
    requires Checkpointed(path, window, force, weigh, budgets, plan, summary)
    ensures var (h, r) := (Fold(path).value, Fold(path + [Entry(id, Checkpoint(Fold(path).value, plan.cut, summary))]));
            r.Success? && Summarises(h, plan.cut, id, summary, r.value)
  {
    hide Fold, Summarises;
    var h := Fold(path).value;
    PlannedCutFolds(path, window, force, weigh, budgets, plan, id, summary);
    CheckpointOutcome(path, id, h.leafId, h.revision, plan.cut, summary);
  }

  // ---------- every interleaving ----------

  /** An entry computed from a path that was read, still to be appended at the leaf that was seen. */
  datatype Draft = Draft(kind: Kind, expected: string)

  datatype World = World(log: seq<Node>, leaf: string, drafts: set<Draft>)

  datatype Event =
    | Write(id: string, kind: Kind)                      // an unconditional append
    | Offer(kind: Kind)                                  // a message to be appended at the leaf seen
    | Fork(target: string)                               // edit and regenerate move the leaf
    | PlanTurn(base: Folded, result: RunResult)          // a run reads the path and prepares its delta
    | PlanCheckpoint(window: int, force: bool, weigh: Message -> nat, budgets: Budgets, plan: Plan, summary: string)
    | Land(draft: Draft, id: string)                     // compare the leaf and append, or be rejected

  /** The message entries the runtime writes: user turns, commands, display projections, and the
      entries the fold does not read. */
  predicate IsWritten(k: Kind) {
    k.Other? || k.Clear? || (k.Chat? && (k.command || k.display || k.role.User?))
  }

  const EMPTY := World([], "", {})

  ghost predicate Next(w: World, e: Event, w': World) {
    var path := Path(w.log, w.leaf);
    match e
    case Write(id, kind) =>
      IsWritten(kind) && FreshId(w.log, id)
      && w' == World(w.log + [Node(Entry(id, kind), w.leaf)], id, w.drafts)
    case Offer(kind) => IsWritten(kind) && w' == w.(drafts := w.drafts + {Draft(kind, w.leaf)})
    case Fork(target) => Known(w.log, target) && w' == w.(leaf := target)
    case PlanTurn(base, result) =>
      Prepare(path, base, result).Success? && Prepare(path, base, result).value.Some?
      && w' == w.(drafts := w.drafts + {Draft(Prepare(path, base, result).value.value, w.leaf)})
    case PlanCheckpoint(window, force, weigh, budgets, plan, summary) =>
      Checkpointed(path, window, force, weigh, budgets, plan, summary)
      && w' == w.(drafts := w.drafts + {Draft(Checkpoint(Fold(path).value, plan.cut, summary), Fold(path).value.leafId)})
    case Land(draft, id) =>
      draft in w.drafts && FreshId(w.log, id)
      && w' == if w.leaf == draft.expected
               then World(w.log + [Node(Entry(id, draft.kind), w.leaf)], id, w.drafts - {draft})
               else w.(drafts := w.drafts - {draft})
  }

  /** Appending an entry of this kind at this leaf leaves a path that folds. */
  ghost predicate Extends(log: seq<Node>, at: string, kind: Kind) {
    forall id :: FreshId(log, id) ==> Fold(Path(log, at) + [Entry(id, kind)]).Success?
  }

  ghost predicate Inv(w: World) {
    && WellFormed(w.log) && Known(w.log, w.leaf)
    && (forall id :: Known(w.log, id) ==> Fold(Path(w.log, id)).Success?)
    && (forall d :: d in w.drafts ==> Known(w.log, d.expected) && Extends(w.log, d.expected, d.kind))
  }

  lemma WrittenEntryFolds(path: seq<Entry>, e: Entry)
    requires Fold(path).Success? && IsWritten(e.kind)
    ensures Fold(path + [e]).Success?
  {
    RunSnoc(path, e);
    FoldIsRun(path);
    if IsInput(e) {
      UsersAreValid([UserMessage(e)]);
      ValidConcat(Run(path).value.messages, [UserMessage(e)]);
    }
  }

  lemma TurnFolds(path: seq<Entry>, base: Folded, result: RunResult, id: string)
    requires DistinctIds(path) && Fold(path).Success?
    requires Prepare(path, base, result).Success? && Prepare(path, base, result).value.Some?
    ensures Fold(path + [Entry(id, Prepare(path, base, result).value.value)]).Success?
  {
    hide Fold;
    hide Prepare;
    AcceptedExactlyWhen(path, base, result);
    var n: nat :| StillAnchored(path, base, n);
    CommitFoldRoundTrip(path, base, result, n, id);
  }

  lemma AppendKeepsInv(w: World, id: string, kind: Kind, drafts: set<Draft>)
    requires Inv(w) && FreshId(w.log, id) && drafts <= w.drafts
    requires Fold(Path(w.log, w.leaf) + [Entry(id, kind)]).Success?
    ensures Inv(World(w.log + [Node(Entry(id, kind), w.leaf)], id, drafts))
  {
    hide Fold;
    hide Path;
    var node := Node(Entry(id, kind), w.leaf);
    var log := w.log + [node];
    Grow(w.log, node, id);
    forall i | Known(log, i) ensures Fold(Path(log, i)).Success? {
      Grow(w.log, node, i);
    }
    forall d | d in drafts ensures Known(log, d.expected) && Extends(log, d.expected, d.kind) {
      Grow(w.log, node, d.expected);
      forall i | FreshId(log, i) ensures Fold(Path(log, d.expected) + [Entry(i, d.kind)]).Success? {
        Grow(w.log, node, i);
      }
    }
  }

  lemma DraftKeepsInv(w: World, d: Draft)
    requires Inv(w) && Known(w.log, d.expected) && Extends(w.log, d.expected, d.kind)
    ensures Inv(w.(drafts := w.drafts + {d}))
  {
  }

  lemma StepKeepsInv(w: World, e: Event, w': World)
    requires Inv(w) && Next(w, e, w')
    ensures Inv(w')
  {
    hide Fold;
    hide Path;
    hide Prepare;
    var path := Path(w.log, w.leaf);
    PathIsDistinct(w.log, w.leaf);
    match e
    case Write(id, kind) =>
      WrittenEntryFolds(path, Entry(id, kind));
      AppendKeepsInv(w, id, kind, w.drafts);
    case Offer(kind) =>
      forall id ensures Fold(path + [Entry(id, kind)]).Success? {
        WrittenEntryFolds(path, Entry(id, kind));
      }
      DraftKeepsInv(w, Draft(kind, w.leaf));
    case Fork(target) =>
    case PlanTurn(base, result) =>
      var kind := Prepare(path, base, result).value.value;
      forall id ensures Fold(path + [Entry(id, kind)]).Success? {
        TurnFolds(path, base, result, id);
      }
      DraftKeepsInv(w, Draft(kind, w.leaf));
    case PlanCheckpoint(window, force, weigh, budgets, plan, summary) =>
      var h := Fold(path).value;
      LeafIsLast(path);
      LeafOfPath(w.log, w.leaf);
      forall id ensures Fold(path + [Entry(id, Checkpoint(h, plan.cut, summary))]).Success? {
        PlannedCutFolds(path, window, force, weigh, budgets, plan, id, summary);
      }
      DraftKeepsInv(w, Draft(Checkpoint(h, plan.cut, summary), h.leafId));
    case Land(draft, id) =>
      if w.leaf == draft.expected {
        AppendKeepsInv(w, id, draft.kind, w.drafts - {draft});
      }
  }

  lemma {:induction false} LeafOfPath(log: seq<Node>, id: string)
    requires WellFormed(log) && Known(log, id)
    ensures IdAt(Path(log, id), |Path(log, id)|) == id
    decreases |log|
  {
    if log == [] {
    } else if log[|log| - 1].entry.id != id {
      var before := log[..|log| - 1];
      if id != "" {
        var k :| 0 <= k < |log| && log[k].entry.id == id;
        assert before[k].entry.id == id;
      }
      LeafOfPath(before, id);
    }
  }

  /** A run of the system from the empty conversation. */
  ghost predicate Behaviour(ws: seq<World>, es: seq<Event>) {
    && |ws| == |es| + 1 && ws[0] == EMPTY
    && forall k :: 0 <= k < |es| ==> Next(ws[k], es[k], ws[k + 1])
  }

  lemma {:induction false} BehaviourKeepsInv(ws: seq<World>, es: seq<Event>, k: nat)
    requires Behaviour(ws, es) && k < |ws|
    ensures Inv(ws[k])
  {
    if k == 0 {
    } else {
      BehaviourKeepsInv(ws, es, k - 1);
      StepKeepsInv(ws[k - 1], es[k - 1], ws[k]);
    }
  }

  /** Whatever is interleaved, the fold never fails on any branch of a reachable conversation. */
  lemma EveryBranchFolds(ws: seq<World>, es: seq<Event>, k: nat, id: string)
    requires Behaviour(ws, es) && k < |ws| && Known(ws[k].log, id)
    ensures Fold(Path(ws[k].log, id)).Success?
  {
    BehaviourKeepsInv(ws, es, k);
  }

  /** On every branch, every input since its last /clear is in the transcript or in a summary. */
  lemma NoInputIsLost(ws: seq<World>, es: seq<Event>, k: nat, id: string, i: nat)
    requires Behaviour(ws, es) && k < |ws| && Known(ws[k].log, id)
    requires var path := Path(ws[k].log, id); i < |path| && IsInput(path[i]) && NoClearFrom(path, i)
    ensures var path := Path(ws[k].log, id);
            Fold(path).Success?
            && (path[i].id in InputIds(Fold(path).value.messages) || path[i].id in Summarised(path))
  {
    BehaviourKeepsInv(ws, es, k);
    var path := Path(ws[k].log, id);
    PathIsDistinct(ws[k].log, id);
    FoldIsRun(path);
    InputsAreKept(path, i);
  }

  /** And what a person typed stands there word for word until a /clear, a delta that takes it, or a
      checkpoint over it. */
  lemma TypedTextStands(ws: seq<World>, es: seq<Event>, k: nat, id: string, i: nat)
    requires Behaviour(ws, es) && k < |ws| && Known(ws[k].log, id)
    requires var path := Path(ws[k].log, id); i < |path| && Typed(path[i].kind) && Untaken(path, i)
    ensures var path := Path(ws[k].log, id);
            Fold(path).Success?
            && Message(User, path[i].kind.text, path[i].id, "", "", "", [], "") in Fold(path).value.messages
  {
    hide Run;
    BehaviourKeepsInv(ws, es, k);
    var path := Path(ws[k].log, id);
    PathIsDistinct(ws[k].log, id);
    FoldIsRun(path);
    TypedTurnStands(path, i);
  }

  /** Steps never rewrite history: the log of a later world extends the log of an earlier one, and
      every branch is still there. */
  lemma {:induction false} BranchesStay(ws: seq<World>, es: seq<Event>, j: nat, k: nat, id: string)
    requires Behaviour(ws, es) && j <= k < |ws| && Known(ws[j].log, id)
    ensures ws[j].log <= ws[k].log && Known(ws[k].log, id) && Path(ws[k].log, id) == Path(ws[j].log, id)
    decreases k - j
  {
    hide Path, Known, Next, Inv;
    if j < k {
      BranchesStay(ws, es, j, k - 1, id);
      BehaviourKeepsInv(ws, es, k - 1);
      LogGrows(ws[k - 1], es[k - 1], ws[k], id);
    }
  }

  lemma LogGrows(w: World, e: Event, w': World, id: string)
    requires Inv(w) && Next(w, e, w') && Known(w.log, id)
    ensures w.log <= w'.log && Known(w'.log, id) && Path(w'.log, id) == Path(w.log, id)
  {
    hide Fold;
    hide Path;
    hide Prepare;
    if w'.log != w.log {
      var node := w'.log[|w.log|];
      assert w'.log == w.log + [node];
      Grow(w.log, node, id);
    }
  }

  // ---------- each input once ----------

  /** A turn of this kind over path takes its inputs from what was entered after its anchor. */
  ghost predicate TakesOwnInputs(path: seq<Entry>, kind: Kind) { ConsumesOwnInputs(path, Entry("", kind)) }

  /** Every turn that is planned takes inputs entered after its anchor only, each once. */
  ghost predicate OwnInputsOnly(ws: seq<World>, es: seq<Event>)
    requires |ws| == |es| + 1
  {
    forall k :: 0 <= k < |es| && es[k].PlanTurn? ==> PlansOwnInputs(ws[k], es[k])
  }

  ghost predicate PlansOwnInputs(w: World, e: Event)
    requires e.PlanTurn?
  {
    var path := Path(w.log, w.leaf);
    var r := Prepare(path, e.base, e.result);
    r.Success? && r.value.Some? ==> TakesOwnInputs(path, r.value.value)
  }

  ghost predicate Tidy(w: World) {
    && (forall id :: Known(w.log, id) ==> Disciplined(Path(w.log, id)))
    && (forall d :: d in w.drafts ==> TakesOwnInputs(Path(w.log, d.expected), d.kind))
  }

  lemma SnocIsDisciplined(path: seq<Entry>, e: Entry)
    requires Disciplined(path) && TakesOwnInputs(path, e.kind)
    ensures Disciplined(path + [e])
  {
    assert (path + [e])[..|path|] == path;
  }

  lemma AppendKeepsTidy(w: World, id: string, kind: Kind, drafts: set<Draft>)
    requires Inv(w) && Tidy(w) && FreshId(w.log, id) && drafts <= w.drafts
    requires TakesOwnInputs(Path(w.log, w.leaf), kind)
    ensures Tidy(World(w.log + [Node(Entry(id, kind), w.leaf)], id, drafts))
  {
    hide Path, Disciplined, Fold, TakesOwnInputs;
    var node := Node(Entry(id, kind), w.leaf);
    var log := w.log + [node];
    Grow(w.log, node, id);
    SnocIsDisciplined(Path(w.log, w.leaf), node.entry);
    forall i | Known(log, i) ensures Disciplined(Path(log, i)) { Grow(w.log, node, i); }
    forall d | d in drafts ensures TakesOwnInputs(Path(log, d.expected), d.kind) {
      Grow(w.log, node, d.expected);
      KnownIsNotFresh(w.log, d.expected, id);
    }
  }

  lemma KnownIsNotFresh(log: seq<Node>, id: string, other: string)
    requires Known(log, id) && FreshId(log, other)
    ensures id != other
  {
  }

  lemma StepKeepsTidy(w: World, e: Event, w': World)
    requires Inv(w) && Tidy(w) && Next(w, e, w') && (e.PlanTurn? ==> PlansOwnInputs(w, e))
    ensures Tidy(w')
  {
    hide Path, Disciplined, Fold, Prepare, Checkpointed;
    match e
    case Write(id, kind) => AppendKeepsTidy(w, id, kind, w.drafts);
    case PlanCheckpoint(_, _, _, _, _, _) =>
      PathIsDistinct(w.log, w.leaf);
    case Land(draft, id) =>
      if w.leaf == draft.expected { AppendKeepsTidy(w, id, draft.kind, w.drafts - {draft}); }
    case _ =>
  }

  lemma {:induction false} BehaviourKeepsTidy(ws: seq<World>, es: seq<Event>, k: nat)
    requires Behaviour(ws, es) && OwnInputsOnly(ws, es) && k < |ws|
    ensures Tidy(ws[k])
  {
    if k > 0 {
      BehaviourKeepsTidy(ws, es, k - 1);
      BehaviourKeepsInv(ws, es, k - 1);
      StepKeepsTidy(ws[k - 1], es[k - 1], ws[k]);
    }
  }

  /** Then on every branch of every reachable conversation, an input since the last /clear that no
      summary took stands in the transcript exactly once, and none stands there twice. */
  lemma EveryInputOnce(ws: seq<World>, es: seq<Event>, k: nat, id: string)
    requires Behaviour(ws, es) && OwnInputsOnly(ws, es) && k < |ws| && Known(ws[k].log, id)
    ensures var path := Path(ws[k].log, id);
            && Fold(path).Success?
            && var ids := InputIds(Fold(path).value.messages);
               && Once(ids)
               && forall i :: 0 <= i < |path| && IsInput(path[i]) && NoClearFrom(path, i) && path[i].id !in Summarised(path) ==>
                    multiset(ids)[path[i].id] == 1
  {
    hide Disciplined, NoClearFrom, Summarised;
    var path := Path(ws[k].log, id);
    BehaviourKeepsInv(ws, es, k);
    BehaviourKeepsTidy(ws, es, k);
    PathIsDistinct(ws[k].log, id);
    FoldIsRun(path);
    EachInputOnce(path);
    forall i | 0 <= i < |path| && IsInput(path[i]) && NoClearFrom(path, i) && path[i].id !in Summarised(path)
      ensures multiset(InputIds(Fold(path).value.messages))[path[i].id] == 1
    {
      PendingInputsExactlyOnce(path, i);
    }
  }
}
