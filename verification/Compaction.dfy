/** The compaction planner (internal/runtime/pi_compaction.go), and that the folder in History
    accepts what it plans.  The token estimate of a message and the host library's two budgets are
    parameters. */
module CompactionPlan {
  import opened Wrappers
  import opened Space
  import opened Transcript
  import opened History

  datatype PlanError = BrokenTranscript | QuestionPending

  datatype Plan = Plan(cut: nat, tokens: nat)

  /** ConvReserveTokens and ConvKeepRecentTokens. */
  datatype Budgets = Budgets(reserve: nat, keepRecent: nat)

  const CONTEXT_WINDOW := 128000

  function Min(a: int, b: int): int { if a < b then a else b }

  function Max(a: int, b: int): int { if a > b then a else b }

  function EffectiveWindow(window: int): (w: int)
    ensures w > 0
  {
    if window <= 0 then CONTEXT_WINDOW else window
  }

  function Reserve(window: int, budgets: Budgets): int {
    Min(budgets.reserve, Max(1, EffectiveWindow(window) / 4))
  }

  function KeepBudget(window: int, force: bool, budgets: Budgets): int {
    if force then 0 else Min(budgets.keepRecent, Max(1, (EffectiveWindow(window) - Reserve(window, budgets)) / 2))
  }

  // ---------- what a plan is ----------

  /** A turn a person wrote: a user message that is no summary. */
  predicate IsRealUser(m: Message) { m.role.User? && m.compactionId == "" }

  function RealUsers(ms: seq<Message>): nat {
    if ms == [] then 0 else (if IsRealUser(ms[0]) then 1 else 0) + RealUsers(ms[1..])
  }

  function Weight(ms: seq<Message>, weigh: Message -> nat): nat {
    if ms == [] then 0 else weigh(ms[0]) + Weight(ms[1..], weigh)
  }

  /** The questions still open after ms, starting from those open before. */
  function OpenQuestions(ms: seq<Message>, open: set<string>): set<string>
    decreases |ms|
  {
    if ms == [] then open else OpenQuestions(ms[1..], AfterMessage(ms[0], open))
  }

  function AfterMessage(m: Message, open: set<string>): set<string> {
    if m.role.ToolResult? && m.question != "" then open + {m.question}
    else if m.role.User? && m.answerId != "" then open - {m.answerId}
    else open
  }

  /** A boundary the planner may cut at: a real user turn whose tail weighs at least keep, with an
      earlier real user turn left to summarise. */
  ghost predicate IsCut(ms: seq<Message>, weigh: Message -> nat, keep: int, i: nat) {
    && 0 < i < |ms|
    && IsRealUser(ms[i])
    && Weight(ms[i..], weigh) >= keep
    && exists j :: 0 <= j < i && IsRealUser(ms[j])
  }

  ghost predicate LatestCut(ms: seq<Message>, weigh: Message -> nat, keep: int, cut: nat) {
    && (cut != 0 ==> IsCut(ms, weigh, keep, cut))
    && (forall i :: cut < i < |ms| ==> !IsCut(ms, weigh, keep, i))
  }

  /** The planner's answer for a history. */
  ghost predicate Planned(h: Folded, window: int, force: bool, weigh: Message -> nat, budgets: Budgets,
                          r: Result<Plan, PlanError>)
  {
    var tokens := Weight(h.messages, weigh);
    if !Valid(h.messages) then r == Failure(BrokenTranscript)
    else if h.revision == "" then r == Success(Plan(0, 0))
    else if OpenQuestions(h.messages, {}) != {} then r == Failure(QuestionPending)
    else if !force && tokens <= EffectiveWindow(window) - Reserve(window, budgets) then r == Success(Plan(0, tokens))
    else r.Success? && r.value.tokens == tokens
         && LatestCut(h.messages, weigh, KeepBudget(window, force, budgets), r.value.cut)
  }

  /** When a transcript that may be compacted is: above the window less its reserve, or forced.  The
      cut is then the latest turn a person wrote, with another before it, whose tail weighs the share
      to be kept. */
  lemma CutExactlyWhen(h: Folded, window: int, force: bool, weigh: Message -> nat, budgets: Budgets,
                       r: Result<Plan, PlanError>, i: nat)
    requires Valid(h.messages) && h.revision != "" && OpenQuestions(h.messages, {}) == {} && 0 < i < |h.messages|
    requires Planned(h, window, force, weigh, budgets, r)
    ensures r.Success? && r.value.tokens == Weight(h.messages, weigh)
    ensures var w := if window <= 0 then 128000 else window;
            var quarter := if w / 4 < 1 then 1 else w / 4;
            var reserve := if budgets.reserve < quarter then budgets.reserve else quarter;
            var half := if (w - reserve) / 2 < 1 then 1 else (w - reserve) / 2;
            var keep := if force then 0 else if budgets.keepRecent < half then budgets.keepRecent else half;
            r.value.cut == i <==>
            && (force || r.value.tokens > w - reserve)
            && Boundary(h.messages, weigh, keep, i)
            && forall k :: i < k < |h.messages| ==> !Boundary(h.messages, weigh, keep, k)
  {
    hide Weight, Valid, OpenQuestions, IsCut, Boundary;
    var keep := KeepBudget(window, force, budgets);
    forall k | 0 < k < |h.messages| ensures IsCut(h.messages, weigh, keep, k) <==> Boundary(h.messages, weigh, keep, k) {
      CutIsBoundary(h.messages, weigh, keep, k);
    }
    if r.value.cut != 0 { CutIsBoundary(h.messages, weigh, keep, r.value.cut); }
  }

  lemma CutIsBoundary(ms: seq<Message>, weigh: Message -> nat, keep: int, k: nat)
    ensures IsCut(ms, weigh, keep, k) <==> Boundary(ms, weigh, keep, k)
    ensures IsCut(ms, weigh, keep, k) ==> k < |ms|
  {
  }

  /** When nothing is weighed against the window at all. */
  lemma NothingPlannedWhen(h: Folded, window: int, force: bool, weigh: Message -> nat, budgets: Budgets, r: Result<Plan, PlanError>)
    requires Planned(h, window, force, weigh, budgets, r)
    ensures r == Failure(BrokenTranscript) <==> !Valid(h.messages)
    ensures Valid(h.messages) && h.revision == "" ==> r == Success(Plan(0, 0))
    ensures r == Failure(QuestionPending) <==> Valid(h.messages) && h.revision != "" && exists q :: q in OpenQuestions(h.messages, {})
  {
    hide Valid, OpenQuestions, Weight;
    assert OpenQuestions(h.messages, {}) != {} <==> exists q :: q in OpenQuestions(h.messages, {});
  }

  ghost predicate Boundary(ms: seq<Message>, weigh: Message -> nat, keep: int, i: nat) {
    && 0 < i < |ms| && ms[i].role == User && ms[i].compactionId == "" && Weight(ms[i..], weigh) >= keep
    && exists j :: 0 <= j < i && ms[j].role == User && ms[j].compactionId == ""
  }

  /** A question is open exactly when some parked result asks it and no later user message answers it. */
  lemma {:induction false} OpenExactlyWhen(ms: seq<Message>, q: string)
    ensures q in OpenQuestions(ms, {}) <==>
            exists k :: 0 <= k < |ms| && ms[k].role == ToolResult && ms[k].question == q && q != "" && Unanswered(ms, k, q)
    decreases |ms|
  {
    if ms != [] {
      var last := |ms| - 1;
      var before := ms[..last];
      OpenExactlyWhen(before, q);
      assert ms == before + [ms[last]];
      OpenSnoc(before, ms[last], {});
      assert Unanswered(ms, last, q);
      forall k | 0 <= k < last
        ensures Unanswered(ms, k, q) <==> Unanswered(before, k, q) && !(ms[last].role == User && ms[last].answerId == q)
      {
        assert forall j :: k < j < last ==> before[j] == ms[j];
      }
    }
  }

  predicate Unanswered(ms: seq<Message>, k: nat, q: string) {
    forall j :: k < j < |ms| ==> !(ms[j].role == User && ms[j].answerId == q)
  }

  // ---------- the planner ----------

  lemma {:induction false} WeightSnoc(ms: seq<Message>, m: Message, weigh: Message -> nat)
    ensures Weight(ms + [m], weigh) == Weight(ms, weigh) + weigh(m)
  {
    if ms == [] {
      assert ms + [m] == [m] && [m][1..] == [];
    } else {
      assert (ms + [m])[1..] == ms[1..] + [m];
      WeightSnoc(ms[1..], m, weigh);
    }
  }

  lemma {:induction false} OpenSnoc(ms: seq<Message>, m: Message, open: set<string>)
    ensures OpenQuestions(ms + [m], open) == AfterMessage(m, OpenQuestions(ms, open))
    decreases |ms|
  {
    if ms == [] {
      assert ms + [m] == [m] && [m][1..] == [];
    } else {
      assert (ms + [m])[1..] == ms[1..] + [m];
      OpenSnoc(ms[1..], m, AfterMessage(ms[0], open));
    }
  }

  /** The first loop: estimates, real user turns and open questions. */
  method Survey(ms: seq<Message>, weigh: Message -> nat)
    returns (tokens: seq<nat>, users: seq<bool>, total: nat, pending: set<string>)
    ensures |tokens| == |users| == |ms|
    ensures forall k :: 0 <= k < |ms| ==> tokens[k] == weigh(ms[k]) && (users[k] <==> IsRealUser(ms[k]))
    ensures total == Weight(ms, weigh) && pending == OpenQuestions(ms, {})
  {
    tokens, users, total, pending := [], [], 0, {};
    for i := 0 to |ms|
      invariant |tokens| == |users| == i
      invariant forall k :: 0 <= k < i ==> tokens[k] == weigh(ms[k]) && (users[k] <==> IsRealUser(ms[k]))
      invariant total == Weight(ms[..i], weigh) && pending == OpenQuestions(ms[..i], {})
    {
      assert ms[..i + 1] == ms[..i] + [ms[i]];
      WeightSnoc(ms[..i], ms[i], weigh);
      OpenSnoc(ms[..i], ms[i], {});
      users := users + [ms[i].role.User? && ms[i].compactionId == ""];
      if ms[i].role.ToolResult? && ms[i].question != "" {
        pending := pending + {ms[i].question};
      }
      if ms[i].role.User? && ms[i].answerId != "" {
        pending := pending - {ms[i].answerId};
      }
      tokens := tokens + [weigh(ms[i])];
      total := total + tokens[i];
    }
    assert ms[..|ms|] == ms;
  }

  /** The second loop: from the back, the first boundary that may be a cut, or 0. */
  method LatestBoundary(ms: seq<Message>, weigh: Message -> nat, tokens: seq<nat>, users: seq<bool>, keep: int)
    returns (cut: nat)
    requires |tokens| == |users| == |ms|
    requires forall k :: 0 <= k < |ms| ==> tokens[k] == weigh(ms[k]) && (users[k] <==> IsRealUser(ms[k]))
    ensures LatestCut(ms, weigh, keep, cut)
  {
    var recent := 0;
    var i := |ms| - 1;
    while i > 0
      invariant -1 <= i < |ms| && (i == -1 ==> ms == [])
      invariant recent == Weight(ms[i + 1..], weigh)
      invariant forall k :: i < k < |ms| ==> !IsCut(ms, weigh, keep, k)
    {
      assert ms[i..] == [ms[i]] + ms[i + 1..];
      assert Weight(ms[i..], weigh) == weigh(ms[i]) + Weight(ms[i + 1..], weigh);
      recent := recent + tokens[i];
      if users[i] && recent >= keep {
        var j := 0;
        while j < i
          invariant 0 <= j <= i
          invariant forall k :: 0 <= k < j ==> !IsRealUser(ms[k])
        {
          if users[j] {
            return i;
          }
          j := j + 1;
        }
      }
      i := i - 1;
    }
    return 0;
  }

  method PlanCompaction(h: Folded, window: int, force: bool, weigh: Message -> nat, budgets: Budgets)
    returns (r: Result<Plan, PlanError>)
    ensures Planned(h, window, force, weigh, budgets, r)
  {
    hide LatestCut;
    if !Valid(h.messages) { return Failure(BrokenTranscript); }
    if h.revision == "" { return Success(Plan(0, 0)); }
    var w := if window <= 0 then CONTEXT_WINDOW else window;
    var reserve := Min(budgets.reserve, Max(1, w / 4));
    var tokens, users, total, pending := Survey(h.messages, weigh);
    if pending != {} { return Failure(QuestionPending); }
    if !force && total <= w - reserve { return Success(Plan(0, total)); }
    var keep := Min(budgets.keepRecent, Max(1, (w - reserve) / 2));
    if force { keep := 0; }
    var cut := LatestBoundary(h.messages, weigh, tokens, users, keep);
    return Success(Plan(cut, total));
  }

  // ---------- the folder accepts the plan ----------

  function Checkpoint(h: Folded, cut: nat, summary: string): Kind {
    Compaction(h.leafId, h.revision, cut, summary)
  }

  function Compacted(h: Folded, cut: nat, id: string, summary: string): Folded
    requires cut <= |h.messages|
  {
    Folded(SummaryView(h.messages, cut, SummaryMessage(id, summary)), h.revision, id)
  }

  /** A checkpoint for a planned cut folds, at the leaf it was planned for, to the summary view. */
  lemma PlannedCutFolds(path: seq<Entry>, window: int, force: bool, weigh: Message -> nat, budgets: Budgets,
                        plan: Plan, id: string, summary: string)
    requires Fold(path).Success? && !Blank(summary)
    requires Planned(Fold(path).value, window, force, weigh, budgets, Success(plan)) && plan.cut != 0
    ensures var h := Fold(path).value;
            plan.cut < |h.messages|
            && Fold(path + [Entry(id, Checkpoint(h, plan.cut, summary))]) == Success(Compacted(h, plan.cut, id, summary))
  {
    var h := Fold(path).value;
    var e := Entry(id, Checkpoint(h, plan.cut, summary));
    assert IsCut(h.messages, weigh, KeepBudget(window, force, budgets), plan.cut);
    RunSnoc(path, e);
    SummaryViewIsValid(h.messages, plan.cut, SummaryMessage(id, summary));
  }

  // ---------- progress ----------

  lemma {:induction false} RealUsersConcat(ms: seq<Message>, ns: seq<Message>)
    ensures RealUsers(ms + ns) == RealUsers(ms) + RealUsers(ns)
  {
    if ms == [] {
      assert ms + ns == ns;
    } else {
      assert (ms + ns)[1..] == ms[1..] + ns;
      RealUsersConcat(ms[1..], ns);
    }
  }

  lemma {:induction false} NoRealUsers(ms: seq<Message>)
    ensures RealUsers(ms) == 0 <==> forall k :: 0 <= k < |ms| ==> !IsRealUser(ms[k])
  {
    if ms != [] {
      NoRealUsers(ms[1..]);
      if RealUsers(ms) == 0 {
        forall k | 0 <= k < |ms| ensures !IsRealUser(ms[k]) {
          assert k > 0 ==> ms[k] == ms[1..][k - 1];
        }
      } else if RealUsers(ms[1..]) != 0 {
        var k :| 0 <= k < |ms[1..]| && IsRealUser(ms[1..][k]);
        assert IsRealUser(ms[k + 1]);
      }
    }
  }

  /** The summary view has the tail's real user turns and no other. */
  lemma ViewUsers(ms: seq<Message>, cut: nat, id: string, summary: string)
    requires cut <= |ms| && id != ""
    ensures RealUsers(SummaryView(ms, cut, SummaryMessage(id, summary))) == RealUsers(ms[cut..])
  {
    var head := Systems(ms[..cut]) + [SummaryMessage(id, summary)];
    SystemsAreSystems(ms[..cut]);
    NoRealUsers(head);
    RealUsersConcat(head, ms[cut..]);
  }

  /** Every compaction leaves fewer real user turns than it found, but at least one. */
  lemma CompactionMakesProgress(h: Folded, window: int, force: bool, weigh: Message -> nat, budgets: Budgets,
                                plan: Plan, id: string, summary: string)
    requires Planned(h, window, force, weigh, budgets, Success(plan)) && plan.cut != 0 && id != ""
    ensures plan.cut < |h.messages|
    ensures 0 < RealUsers(Compacted(h, plan.cut, id, summary).messages) < RealUsers(h.messages)
  {
    var ms, cut := h.messages, plan.cut;
    assert IsCut(ms, weigh, KeepBudget(window, force, budgets), cut);
    ViewUsers(ms, cut, id, summary);
    assert ms == ms[..cut] + ms[cut..];
    RealUsersConcat(ms[..cut], ms[cut..]);
    var j :| 0 <= j < cut && IsRealUser(ms[j]);
    NoRealUsers(ms[..cut]);
    assert IsRealUser(ms[..cut][j]);
  }

  /** Fewer questions open at the start, fewer open at the end. */
  lemma {:induction false} OpenIsMonotone(ms: seq<Message>, less: set<string>, more: set<string>)
    requires less <= more
    ensures OpenQuestions(ms, less) <= OpenQuestions(ms, more)
    decreases |ms|
  {
    if ms != [] {
      OpenIsMonotone(ms[1..], AfterMessage(ms[0], less), AfterMessage(ms[0], more));
    }
  }

  lemma {:induction false} OpenConcat(ms: seq<Message>, ns: seq<Message>, open: set<string>)
    ensures OpenQuestions(ms + ns, open) == OpenQuestions(ns, OpenQuestions(ms, open))
    decreases |ms|
  {
    if ms == [] {
      assert ms + ns == ns;
    } else {
      assert (ms + ns)[1..] == ms[1..] + ns;
      OpenConcat(ms[1..], ns, AfterMessage(ms[0], open));
    }
  }

  /** No question is open after the summary view when none was open before. */
  lemma {:induction false} NothingReopens(ms: seq<Message>, open: set<string>)
    requires forall k :: 0 <= k < |ms| ==> AfterMessage(ms[k], open) == open
    ensures OpenQuestions(ms, open) == open
    decreases |ms|
  {
    if ms != [] {
      NothingReopens(ms[1..], open);
    }
  }

  lemma ViewHasNoOpenQuestions(ms: seq<Message>, cut: nat, id: string, summary: string)
    requires cut <= |ms| && OpenQuestions(ms, {}) == {}
    ensures OpenQuestions(SummaryView(ms, cut, SummaryMessage(id, summary)), {}) == {}
  {
    var head := Systems(ms[..cut]) + [SummaryMessage(id, summary)];
    SystemsAreSystems(ms[..cut]);
    forall k | 0 <= k < |head| ensures AfterMessage(head[k], {}) == {} {
    }
    NothingReopens(head, {});
    hide OpenQuestions;
    OpenConcat(head, ms[cut..], {});
    assert ms == ms[..cut] + ms[cut..];
    OpenConcat(ms[..cut], ms[cut..], {});
    OpenIsMonotone(ms[cut..], {}, OpenQuestions(ms[..cut], {}));
  }

  /** A second forced compaction right after a forced one finds nothing to cut. */
  lemma SecondForcedCompactionIsNoOp(h: Folded, window: int, weigh: Message -> nat, budgets: Budgets, plan: Plan,
                                     id: string, summary: string,
                                     window': int, weigh': Message -> nat, r: Result<Plan, PlanError>)
    requires Planned(h, window, true, weigh, budgets, Success(plan)) && plan.cut != 0 && id != ""
    requires plan.cut < |h.messages|
    requires Planned(Compacted(h, plan.cut, id, summary), window', true, weigh', budgets, r)
    ensures r.Success? && r.value.cut == 0
  {
    var ms, cut := h.messages, plan.cut;
    assert IsCut(ms, weigh, 0, cut);
    SummaryViewIsValid(ms, cut, SummaryMessage(id, summary));
    ViewHasNoOpenQuestions(ms, cut, id, summary);
    OneRealUserLeft(ms, weigh, cut, id, summary);
    assert forall i :: !IsCut(Compacted(h, cut, id, summary).messages, weigh', 0, i);
  }

  lemma OneRealUserLeft(ms: seq<Message>, weigh: Message -> nat, cut: nat, id: string, summary: string)
    requires IsCut(ms, weigh, 0, cut) && LatestCut(ms, weigh, 0, cut) && id != ""
    ensures var view := SummaryView(ms, cut, SummaryMessage(id, summary));
            forall i, k :: 0 <= i < k < |view| ==> !(IsRealUser(view[i]) && IsRealUser(view[k]))
  {
    var head := Systems(ms[..cut]) + [SummaryMessage(id, summary)];
    var view := SummaryView(ms, cut, SummaryMessage(id, summary));
    SystemsAreSystems(ms[..cut]);
    assert view == head + ms[cut..];
    forall k | 0 <= k < |view| && IsRealUser(view[k]) ensures k == |head| {
      if k >= |head| {
        assert view[k] == ms[k - |head| + cut];
        assert !IsCut(ms, weigh, 0, k - |head| + cut) || k == |head|;
      }
    }
  }
}
