/** The native model ladder's durable selection (internal/runtime/native_ladder_*.go): a change of
    rung is written to the session journal before it is published in memory, and a fresh ladder is
    restored from the journal.  ai.ParseFallbackSelection is not part of this model; it is read as
    strictly as the writer allows: generations 1, 2, 3, ... and every record changes the rung. */
module Ladder {
  import opened Wrappers

  datatype Rung = Rung(providerId: string, model: string)

  datatype Selection = Selection(version: int, generation: int, rung: int, providerId: string, model: string)

  /** A journal entry of the session: a selection, a payload that does not parse, or anything else. */
  datatype JournalEntry = SelectionEntry(selection: Selection) | CorruptSelection | OtherEntry

  const MAX_GENERATION := 0xFFFF_FFFF_FFFF_FFFF

  datatype LadderError =
    | Cancelled
    | Stale
    | OutOfRange
    | Exhausted
    | NotPersisted
    | Crashed
    | BadSelection
    | RowChanged
    | Corrupt
    | BadScope

  // ---------- one ladder's memory ----------

  /** The published choice: rung zero at generation zero until something is selected. */
  datatype Choice = Choice(active: nat, generation: nat)

  const PRIMARY := Choice(0, 0)

  function RecordOf(rungs: seq<Rung>, generation: int, rung: nat): Selection
    requires rung < |rungs|
  {
    Selection(1, generation, rung, rungs[rung].providerId, rungs[rung].model)
  }

  /** How the durable write fares. */
  datatype Persist = Written | Failed | WrittenThenCrash

  /** The record a selection writes, None when it is refused or changes nothing. */
  function ToWrite(rungs: seq<Rung>, c: Choice, cancelled: bool, expected: nat, next: int): Result<Option<Selection>, LadderError> {
    if cancelled then Failure(Cancelled)
    else if expected != c.generation then Failure(Stale)
    else if next < 0 || next >= |rungs| then Failure(OutOfRange)
    else if next == c.active then Success(None)
    else if c.generation == MAX_GENERATION then Failure(Exhausted)
    else Success(Some(RecordOf(rungs, c.generation + 1, next)))
  }

  // ---------- reading a journal ----------

  /** ai.ParseFallbackSelection, as strictly as the writer allows. */
  predicate Follows(previous: Option<Selection>, s: Selection) {
    match previous
    case None => s.generation == 1 && s.rung != 0
    case Some(p) => s.generation == p.generation + 1 && s.rung != p.rung
  }

  function Validate(rungs: seq<Rung>, s: Selection): Option<LadderError> {
    if s.version != 1 || s.rung < 0 || s.rung >= |rungs| then Some(BadSelection)
    else if s.providerId != rungs[s.rung].providerId || s.model != rungs[s.rung].model then Some(RowChanged)
    else None
  }

  /** The last selection of a journal in which every transition is valid. */
  function ReadJournal(rungs: seq<Rung>, entries: seq<JournalEntry>): Result<Option<Selection>, LadderError> {
    if entries == [] then Success(None)
    else
      var before, e := ReadJournal(rungs, entries[..|entries| - 1]), entries[|entries| - 1];
      if before.Failure? then before
      else match e
        case OtherEntry => before
        case CorruptSelection => Failure(Corrupt)
        case SelectionEntry(s) =>
          if !Follows(before.value, s) then Failure(Corrupt)
          else match Validate(rungs, s)
            case Some(err) => Failure(err)
            case None => Success(Some(s))
  }

  function ChoiceOf(s: Option<Selection>): Choice
    requires s.Some? ==> s.value.rung >= 0 && s.value.generation >= 0
  {
    match s case None => PRIMARY case Some(x) => Choice(x.rung, x.generation)
  }

  lemma {:induction false} ReadFailureStays(rungs: seq<Rung>, entries: seq<JournalEntry>, n: nat)
    requires n <= |entries| && ReadJournal(rungs, entries[..n]).Failure?
    ensures ReadJournal(rungs, entries) == ReadJournal(rungs, entries[..n])
    decreases |entries|
  {
    if n == |entries| {
      assert entries[..n] == entries;
    } else {
      var before := entries[..|entries| - 1];
      assert before[..n] == entries[..n];
      ReadFailureStays(rungs, before, n);
    }
  }

  lemma {:induction false} ReadIsValid(rungs: seq<Rung>, entries: seq<JournalEntry>)
    requires ReadJournal(rungs, entries).Success? && ReadJournal(rungs, entries).value.Some?
    ensures var s := ReadJournal(rungs, entries).value.value;
            Validate(rungs, s) == None && s.generation >= 1
    decreases |entries|
  {
    var before := entries[..|entries| - 1];
    if ReadJournal(rungs, before).Success? && ReadJournal(rungs, before).value.Some? {
      ReadIsValid(rungs, before);
    }
  }

  // ---------- the ladder ----------

  /** A candidate scope: which ladder it belongs to, the rung it tries, and when it was admitted. */
  datatype Scope = Scope(owner: NativeModelLadder, rung: int, generation: nat)

  class Journal {
    var entries: seq<JournalEntry>

    constructor ()
      ensures entries == []
    {
      entries := [];
    }

    method Record(e: JournalEntry, outcome: Persist) returns (ok: bool)
      modifies this
      ensures ok <==> outcome != Failed
      ensures entries == if outcome == Failed then old(entries) else old(entries) + [e]
    {
      if outcome == Failed { return false; }
      entries := entries + [e];
      return true;
    }
  }

  class NativeModelLadder {
    const rungs: seq<Rung>
    var active: nat
    var generation: nat

    constructor (rungs: seq<Rung>)
      requires rungs != []
      ensures this.rungs == rungs && Published() == PRIMARY && Valid()
    {
      this.rungs := rungs;
      active, generation := 0, 0;
    }

    predicate Valid()
      reads this
    {
      active < |rungs| && generation <= MAX_GENERATION
    }

    function Published(): Choice
      reads this
    {
      Choice(active, generation)
    }

    /** A new owner over the same bindings, at its primary. */
    method Fork() returns (child: NativeModelLadder)
      requires Valid()
      ensures fresh(child) && child.rungs == rungs && child.Published() == PRIMARY && child.Valid()
    {
      child := new NativeModelLadder(rungs);
    }

    /** Adopt one durable selection, or nothing of it. */
    method Restore(s: Selection) returns (r: Option<LadderError>)
      requires Valid() && 0 <= s.generation <= MAX_GENERATION
      modifies this
      ensures Valid() && r == Validate(rungs, s)
      ensures r.None? <==> s.version == 1 && 0 <= s.rung < |rungs|
                           && s.providerId == rungs[s.rung].providerId && s.model == rungs[s.rung].model
      ensures r == Some(BadSelection) <==> s.version != 1 || s.rung < 0 || s.rung >= |rungs|
      ensures Published() == if r.None? then Choice(s.rung, s.generation) else old(Published())
    {
      r := Validate(rungs, s);
      if r.Some? { return; }
      active, generation := s.rung, s.generation;
    }

    /** Adopt the last selection of a journal whose every transition is valid, or nothing of it. */
    method RestoreJournal(entries: seq<JournalEntry>) returns (r: Option<LadderError>)
      requires Valid() && |entries| <= MAX_GENERATION
      modifies this
      ensures Valid()
      ensures match ReadJournal(rungs, entries)
              case Failure(err) => r == Some(err) && Published() == old(Published())
              case Success(None) => r == None && Published() == old(Published())
              case Success(Some(s)) => r == None && s.rung >= 0 && s.generation >= 0 && Published() == ChoiceOf(Some(s))
    {
      var previous: Option<Selection> := None;
      for i := 0 to |entries|
        invariant unchanged(this)
        invariant ReadJournal(rungs, entries[..i]) == Success(previous)
        invariant previous.Some? ==> Validate(rungs, previous.value) == None && 1 <= previous.value.generation <= i
      {
        assert entries[..i + 1][..i] == entries[..i];
        if ReadJournal(rungs, entries[..i + 1]).Failure? {
          ReadFailureStays(rungs, entries, i + 1);
        }
        match entries[i] {
          case OtherEntry =>
          case CorruptSelection => return Some(Corrupt);
          case SelectionEntry(s) =>
            if !Follows(previous, s) { return Some(Corrupt); }
            var invalid := Validate(rungs, s);
            if invalid.Some? { return invalid; }
            previous := Some(s);
        }
      }
      assert entries[..|entries|] == entries;
      if previous.Some? {
        active, generation := previous.value.rung, previous.value.generation;
      }
      return None;
    }

    /** Write, then publish.  A refused, failed or crashed selection publishes nothing; and a scope that
        was admitted before stays bound to its own rung exactly when nothing was published. */
    method SelectRung(cancelled: bool, expected: nat, next: int, journal: Journal, outcome: Persist)
      returns (r: Option<LadderError>)
      requires Valid()
      modifies this, journal
      ensures Valid()
      ensures var w := ToWrite(rungs, old(Published()), cancelled, expected, next);
              match w
              case Failure(err) => r == Some(err) && Published() == old(Published()) && journal.entries == old(journal.entries)
              case Success(None) => r == None && Published() == old(Published()) && journal.entries == old(journal.entries)
              case Success(Some(s)) =>
                && r == (match outcome case Written => None case Failed => Some(NotPersisted) case WrittenThenCrash => Some(Crashed))
                && journal.entries == (if outcome == Failed then old(journal.entries) else old(journal.entries) + [SelectionEntry(s)])
                && Published() == (if outcome == Written then Choice(next, s.generation) else old(Published()))
      ensures cancelled || expected != old(generation) || next < 0 || next >= |rungs| ==>
                && r == Some(if cancelled then Cancelled else if expected != old(generation) then Stale else OutOfRange)
                && active == old(active) && generation == old(generation) && journal.entries == old(journal.entries)
      ensures !cancelled && expected == old(generation) && next == old(active) ==>
                r == None && active == old(active) && generation == old(generation) && journal.entries == old(journal.entries)
      ensures !cancelled && expected == old(generation) && 0 <= next < |rungs| && next != old(active) ==>
                var s := Selection(1, expected + 1, next, rungs[next].providerId, rungs[next].model);
                if expected == 0xFFFF_FFFF_FFFF_FFFF then
                  r == Some(Exhausted) && active == old(active) && generation == old(generation)
                  && journal.entries == old(journal.entries)
                else
                  match outcome
                  case Written =>
                    r == None && active == next && generation == expected + 1
                    && journal.entries == old(journal.entries) + [SelectionEntry(s)]
                  case Failed =>
                    r.Some? && active == old(active) && generation == old(generation) && journal.entries == old(journal.entries)
                  case WrittenThenCrash =>
                    r.Some? && active == old(active) && generation == old(generation)
                    && journal.entries == old(journal.entries) + [SelectionEntry(s)]
      ensures forall i :: 0 <= i < |rungs| ==>
                var admitted := old(AttemptContext(i, generation));
                && admitted.Success?
                && RequestBinding(Some(admitted.value)) ==
                   if Published() == old(Published()) then Success(rungs[i]) else Failure(BadScope)
    {
      if cancelled { return Some(Cancelled); }
      if expected != generation { return Some(Stale); }
      if next < 0 || next >= |rungs| { return Some(OutOfRange); }
      if next == active { return None; }
      if generation == MAX_GENERATION { return Some(Exhausted); }
      var s := Selection(1, generation + 1, next, rungs[next].providerId, rungs[next].model);
      var ok := journal.Record(SelectionEntry(s), outcome);
      if !ok { return Some(NotPersisted); }
      if outcome == WrittenThenCrash { return Some(Crashed); }
      active, generation := next, generation + 1;
      return None;
    }

    function AttemptContext(rung: int, generation: nat): (r: Result<Scope, LadderError>)
      reads this
      ensures r.Success? <==> 0 <= rung < |rungs| && generation == this.generation
    {
      if rung < 0 || rung >= |rungs| || generation != this.generation then Failure(BadScope)
      else Success(Scope(this, rung, generation))
    }

    /** The rung a request is bound to: its scope's while that is current, else the published one. */
    function RequestBinding(scope: Option<Scope>): (r: Result<Rung, LadderError>)
      requires Valid()
      reads this
      ensures scope.Some? && (scope.value.owner != this || scope.value.generation != generation) ==> r.Failure?
      ensures scope.Some? && AttemptContext(scope.value.rung, scope.value.generation) == Success(scope.value) ==>
                r == Success(rungs[scope.value.rung])
      ensures scope.None? ==> r == Success(rungs[active])
    {
      if scope.None? then Success(rungs[active])
      else if scope.value.owner != this || scope.value.generation != generation
              || scope.value.rung < 0 || scope.value.rung >= |rungs| then Failure(BadScope)
      else Success(rungs[scope.value.rung])
    }
  }

  /** A ladder admits exactly the scopes it then binds. */
  lemma AdmitsExactlyWhatItBinds(ladder: NativeModelLadder, scope: Scope)
    requires ladder.Valid()
    ensures ladder.AttemptContext(scope.rung, scope.generation) == Success(scope) <==>
            ladder.RequestBinding(Some(scope)).Success?
    ensures ladder.RequestBinding(Some(scope)).Success? ==>
              ladder.RequestBinding(Some(scope)).value == ladder.rungs[scope.rung]
  {
  }

  // ---------- every run, crashes included ----------

  /** The durable journal and, while the process is up, the published choice of its ladder.  Each
      restart makes a ladder of its own: owner counts them. */
  datatype World = World(up: bool, owner: nat, memory: Choice, journal: seq<JournalEntry>)

  datatype Event =
    | Select(cancelled: bool, expected: nat, next: int, outcome: Persist)
    | Log                // another entry reaches the journal
    | Crash
    | Restart            // a fresh ladder is restored from the journal

  const FRESH := World(true, 0, PRIMARY, [])

  ghost predicate Next(rungs: seq<Rung>, w: World, e: Event, w': World) {
    match e
    case Select(cancelled, expected, next, outcome) =>
      w.up &&
      (match ToWrite(rungs, w.memory, cancelled, expected, next)
       case Failure(_) => w' == w
       case Success(None) => w' == w
       case Success(Some(s)) =>
         match outcome
         case Failed => w' == w
         case Written => w' == World(true, w.owner, Choice(next, s.generation), w.journal + [SelectionEntry(s)])
         case WrittenThenCrash => w' == World(false, w.owner, w.memory, w.journal + [SelectionEntry(s)]))
    case Log => w.up && w' == w.(journal := w.journal + [OtherEntry])
    case Crash => w.up && w' == w.(up := false)
    case Restart =>
      !w.up && ReadJournal(rungs, w.journal).Success?
      && (ReadJournal(rungs, w.journal).value.Some? ==>
            ReadJournal(rungs, w.journal).value.value.rung >= 0 && ReadJournal(rungs, w.journal).value.value.generation >= 0)
      && w' == World(true, w.owner + 1, ChoiceOf(ReadJournal(rungs, w.journal).value), w.journal)
  }

  ghost predicate Behaviour(rungs: seq<Rung>, ws: seq<World>, es: seq<Event>) {
    && rungs != [] && |ws| == |es| + 1 && ws[0] == FRESH
    && forall k :: 0 <= k < |es| ==> Next(rungs, ws[k], es[k], ws[k + 1])
  }

  /** The selections of a journal, in order. */
  function Selections(entries: seq<JournalEntry>): seq<Selection> {
    if entries == [] then []
    else
      var before, e := Selections(entries[..|entries| - 1]), entries[|entries| - 1];
      if e.SelectionEntry? then before + [e.selection] else before
  }

  /** The choice the journal records. */
  function Durable(rungs: seq<Rung>, entries: seq<JournalEntry>): Choice {
    var read := ReadJournal(rungs, entries);
    if read.Success? && read.value.Some? && read.value.value.rung >= 0 && read.value.value.generation >= 0
    then ChoiceOf(read.value) else PRIMARY
  }

  ghost predicate Inv(rungs: seq<Rung>, w: World) {
    && ReadJournal(rungs, w.journal).Success?
    && (w.up ==> w.memory == Durable(rungs, w.journal))
    && var ss := Selections(w.journal);
       && (forall k :: 0 <= k < |ss| ==> ss[k].generation == k + 1)
       && ReadJournal(rungs, w.journal).value == (if ss == [] then None else Some(ss[|ss| - 1]))
  }

  lemma JournalGrows(rungs: seq<Rung>, w: World, e: JournalEntry)
    requires Inv(rungs, w) && e != CorruptSelection
    requires e.SelectionEntry? ==>
               Follows(ReadJournal(rungs, w.journal).value, e.selection) && Validate(rungs, e.selection).None?
    ensures var journal := w.journal + [e];
            && Inv(rungs, World(false, w.owner, w.memory, journal))
            && Durable(rungs, journal) == if e.SelectionEntry? && e.selection.generation >= 0 then Choice(e.selection.rung, e.selection.generation) else Durable(rungs, w.journal)
  {
    assert (w.journal + [e])[..|w.journal|] == w.journal;
  }

  lemma StepKeepsInv(rungs: seq<Rung>, w: World, e: Event, w': World)
    requires rungs != [] && Inv(rungs, w) && Next(rungs, w, e, w')
    ensures Inv(rungs, w')
    ensures Durable(rungs, w'.journal).generation >= Durable(rungs, w.journal).generation
  {
    hide ReadJournal, Selections;
    var read := ReadJournal(rungs, w.journal).value;
    if read.Some? { ReadIsValid(rungs, w.journal); }
    match e
    case Select(cancelled, expected, next, outcome) =>
      var write := ToWrite(rungs, w.memory, cancelled, expected, next);
      if write.Success? && write.value.Some? {
        JournalGrows(rungs, w, SelectionEntry(write.value.value));
      }
    case Log => JournalGrows(rungs, w, OtherEntry);
    case Crash =>
    case Restart =>
  }

  lemma {:induction false} BehaviourKeepsInv(rungs: seq<Rung>, ws: seq<World>, es: seq<Event>, k: nat)
    requires Behaviour(rungs, ws, es) && k < |ws|
    ensures Inv(rungs, ws[k])
  {
    if k > 0 {
      BehaviourKeepsInv(rungs, ws, es, k - 1);
      StepKeepsInv(rungs, ws[k - 1], es[k - 1], ws[k]);
    }
  }

  /** While the process is up its memory is what a restart would restore, and a restart always can. */
  lemma MemoryIsDurable(rungs: seq<Rung>, ws: seq<World>, es: seq<Event>, k: nat)
    requires Behaviour(rungs, ws, es) && k < |ws|
    ensures ReadJournal(rungs, ws[k].journal).Success?
    ensures var (ss, c) := (Selections(ws[k].journal), Durable(rungs, ws[k].journal));
            if ss == [] then c.active == 0 && c.generation == 0
            else c.active == ss[|ss| - 1].rung && c.generation == ss[|ss| - 1].generation
    ensures ws[k].up ==> ws[k].memory == Durable(rungs, ws[k].journal)
    ensures !ws[k].up ==> Next(rungs, ws[k], Restart, World(true, ws[k].owner + 1, Durable(rungs, ws[k].journal), ws[k].journal))
  {
    BehaviourKeepsInv(rungs, ws, es, k);
    if ReadJournal(rungs, ws[k].journal).value.Some? { ReadIsValid(rungs, ws[k].journal); }
  }

  /** The journal holds exactly one selection for each generation up to the durable one. */
  lemma OneSelectionPerGeneration(rungs: seq<Rung>, ws: seq<World>, es: seq<Event>, k: nat)
    requires Behaviour(rungs, ws, es) && k < |ws|
    ensures var ss := Selections(ws[k].journal);
            |ss| == Durable(rungs, ws[k].journal).generation && forall i :: 0 <= i < |ss| ==> ss[i].generation == i + 1
  {
    BehaviourKeepsInv(rungs, ws, es, k);
    if ReadJournal(rungs, ws[k].journal).value.Some? { ReadIsValid(rungs, ws[k].journal); }
  }

  // ---------- what a selection is checked against ----------

  /** The selections a journal may hold: numbered from one, each a current row and another rung than
      the one before it. */
  predicate ReadableSelections(rungs: seq<Rung>, ss: seq<Selection>) {
    forall k :: 0 <= k < |ss| ==> ReadableAt(rungs, ss, k)
  }

  predicate ReadableAt(rungs: seq<Rung>, ss: seq<Selection>, k: nat)
    requires k < |ss|
  {
    && ss[k].version == 1 && ss[k].generation == k + 1 && 0 <= ss[k].rung < |rungs|
    && ss[k].providerId == rungs[ss[k].rung].providerId && ss[k].model == rungs[ss[k].rung].model
    && ss[k].rung != if k == 0 then 0 else ss[k - 1].rung
  }

  lemma {:induction false} ReadsExactlyWhen(rungs: seq<Rung>, entries: seq<JournalEntry>)
    ensures var (read, ss) := (ReadJournal(rungs, entries), Selections(entries));
            && (read.Success? <==> CorruptSelection !in entries && ReadableSelections(rungs, ss))
            && (read.Success? ==> read.value == if ss == [] then None else Some(ss[|ss| - 1]))
  {
    if entries != [] {
      var before, e := entries[..|entries| - 1], entries[|entries| - 1];
      ReadsExactlyWhen(rungs, before);
      assert entries == before + [e];
      if e.SelectionEntry? { LastSelection(rungs, Selections(before), e.selection); }
    }
  }

  lemma LastSelection(rungs: seq<Rung>, before: seq<Selection>, s: Selection)
    ensures ReadableSelections(rungs, before + [s]) <==>
            && ReadableSelections(rungs, before)
            && Follows(if before == [] then None else Some(before[|before| - 1]), s) && Validate(rungs, s).None?
  {
    var all := before + [s];
    assert all[|before|] == s;
    forall k | 0 <= k < |before| ensures ReadableAt(rungs, all, k) <==> ReadableAt(rungs, before, k) {
      assert all[k] == before[k] && (k > 0 ==> all[k - 1] == before[k - 1]);
    }
    if ReadableSelections(rungs, before) && before != [] { assert ReadableAt(rungs, before, |before| - 1); }
    if ReadableSelections(rungs, all) { assert ReadableAt(rungs, all, |before|); }
  }

  /** Whatever reaches the journal as a selection was selected by a caller who was not cancelled and
      expected exactly the selections already there. */
  lemma SelectorsSawTheLast(rungs: seq<Rung>, ws: seq<World>, es: seq<Event>, k: nat)
    requires Behaviour(rungs, ws, es) && k < |es| && Selections(ws[k + 1].journal) != Selections(ws[k].journal)
    ensures var e := es[k];
            && e.Select? && !e.cancelled && 0 <= e.next < |rungs|
            && e.expected == |Selections(ws[k].journal)|
            && ws[k + 1].journal == ws[k].journal
               + [SelectionEntry(Selection(1, e.expected + 1, e.next, rungs[e.next].providerId, rungs[e.next].model))]
            && |Selections(ws[k + 1].journal)| == e.expected + 1
  {
    hide ReadJournal, Next, Selections;
    OneSelectionPerGeneration(rungs, ws, es, k);
    MemoryIsDurable(rungs, ws, es, k);
    StepAdds(rungs, ws[k], es[k], ws[k + 1]);
  }

  lemma StepAdds(rungs: seq<Rung>, w: World, e: Event, w': World)
    requires Next(rungs, w, e, w') && Selections(w'.journal) != Selections(w.journal)
    ensures e.Select? && !e.cancelled && 0 <= e.next < |rungs| && w.up && e.expected == w.memory.generation
    ensures w'.journal == w.journal
            + [SelectionEntry(Selection(1, e.expected + 1, e.next, rungs[e.next].providerId, rungs[e.next].model))]
    ensures |Selections(w'.journal)| == |Selections(w.journal)| + 1
  {
    hide ReadJournal, Durable;
    assert w'.journal != w.journal;
    assert w'.journal[..|w.journal|] == w.journal;
  }

  lemma {:induction false} SelectionsGrow(rungs: seq<Rung>, ws: seq<World>, es: seq<Event>, j: nat, k: nat)
    requires Behaviour(rungs, ws, es) && j <= k < |ws|
    ensures |Selections(ws[j].journal)| <= |Selections(ws[k].journal)|
    decreases k - j
  {
    hide Next;
    if j < k {
      SelectionsGrow(rungs, ws, es, j, k - 1);
      if Selections(ws[k].journal) != Selections(ws[k - 1].journal) { SelectorsSawTheLast(rungs, ws, es, k - 1); }
    }
  }

  /** Of two selections that expect one generation at most one lands, whatever lies in between. */
  lemma ExpectedOnce(rungs: seq<Rung>, ws: seq<World>, es: seq<Event>, j: nat, k: nat)
    requires Behaviour(rungs, ws, es) && j < k < |es| && es[j].Select? && es[k].Select? && es[j].expected == es[k].expected
    ensures Selections(ws[j + 1].journal) == Selections(ws[j].journal) || Selections(ws[k + 1].journal) == Selections(ws[k].journal)
  {
    hide Next;
    if Selections(ws[j + 1].journal) != Selections(ws[j].journal) && Selections(ws[k + 1].journal) != Selections(ws[k].journal) {
      SelectorsSawTheLast(rungs, ws, es, j);
      SelectorsSawTheLast(rungs, ws, es, k);
      SelectionsGrow(rungs, ws, es, j + 1, k);
    }
  }

  lemma {:induction false} GenerationsGrow(rungs: seq<Rung>, ws: seq<World>, es: seq<Event>, j: nat, k: nat)
    requires Behaviour(rungs, ws, es) && j <= k < |ws|
    ensures Durable(rungs, ws[j].journal).generation <= Durable(rungs, ws[k].journal).generation
    decreases k - j
  {
    if j < k {
      GenerationsGrow(rungs, ws, es, j, k - 1);
      BehaviourKeepsInv(rungs, ws, es, k - 1);
      StepKeepsInv(rungs, ws[k - 1], es[k - 1], ws[k]);
    }
  }

  // ---------- how long a scope lives ----------

  /** A scope as the runs know it: the ladder that admitted it, its rung and its generation. */
  datatype Ticket = Ticket(owner: nat, rung: int, generation: nat)

  /** AttemptContext of the running ladder. */
  predicate Admits(rungs: seq<Rung>, w: World, t: Ticket) {
    w.up && t.owner == w.owner && 0 <= t.rung < |rungs| && t.generation == w.memory.generation
  }

  /** RequestBinding of the running ladder; None when the scope resolves to nothing. */
  function Bound(rungs: seq<Rung>, w: World, t: Ticket): Option<Rung> {
    if !w.up || t.owner != w.owner || t.generation != w.memory.generation || t.rung < 0 || t.rung >= |rungs| then None
    else Some(rungs[t.rung])
  }

  /** The step publishes another selection, or makes another ladder. */
  predicate Supersedes(rungs: seq<Rung>, w: World, e: Event) {
    match e
    case Select(cancelled, expected, next, outcome) =>
      outcome == Written
      && ToWrite(rungs, w.memory, cancelled, expected, next).Success?
      && ToWrite(rungs, w.memory, cancelled, expected, next).value.Some?
    case Restart => true
    case _ => false
  }

  ghost predicate Superseded(rungs: seq<Rung>, ws: seq<World>, es: seq<Event>, i: nat, k: nat)
    requires |ws| == |es| + 1 && k < |ws|
  {
    exists s :: i <= s < k && Supersedes(rungs, ws[s], es[s])
  }

  /** Owner and generation never go back, and stand still exactly while nothing is superseded. */
  lemma {:induction false} StampsGrow(rungs: seq<Rung>, ws: seq<World>, es: seq<Event>, i: nat, k: nat)
    requires Behaviour(rungs, ws, es) && i <= k < |ws|
    ensures var v, w := ws[i], ws[k];
            && (v.owner < w.owner || (v.owner == w.owner && v.memory.generation <= w.memory.generation))
            && (Superseded(rungs, ws, es, i, k) <==> v.owner != w.owner || v.memory.generation != w.memory.generation)
    decreases k - i
  {
    hide ReadJournal, Durable;
    if i < k {
      StampsGrow(rungs, ws, es, i, k - 1);
      assert Next(rungs, ws[k - 1], es[k - 1], ws[k]);
      StepStamps(rungs, ws[k - 1], es[k - 1], ws[k]);
      if Superseded(rungs, ws, es, i, k - 1) {
        var s :| i <= s < k - 1 && Supersedes(rungs, ws[s], es[s]);
        assert Superseded(rungs, ws, es, i, k);
      }
    }
  }

  lemma StepStamps(rungs: seq<Rung>, w: World, e: Event, w': World)
    requires Next(rungs, w, e, w')
    ensures if !Supersedes(rungs, w, e) then w'.owner == w.owner && w'.memory == w.memory
            else if e.Restart? then w'.owner > w.owner
            else w'.owner == w.owner && w'.memory.generation > w.memory.generation
  {
    hide ReadJournal;
  }

  /** A scope that was admitted is bound at a later moment, to its own rung, exactly when no selection
      was published and no restart lies in between. */
  lemma BoundExactlyUntilSuperseded(rungs: seq<Rung>, ws: seq<World>, es: seq<Event>, i: nat, k: nat, t: Ticket)
    requires Behaviour(rungs, ws, es) && i <= k < |ws| && Admits(rungs, ws[i], t) && ws[k].up
    ensures Bound(rungs, ws[k], t) ==
            if Superseded(rungs, ws, es, i, k) then None else Some(rungs[t.rung])
  {
    StampsGrow(rungs, ws, es, i, k);
  }

  /** So a scope that once resolves to nothing, while the process is up, never does again. */
  lemma SupersededStaysSuperseded(rungs: seq<Rung>, ws: seq<World>, es: seq<Event>, i: nat, j: nat, k: nat, t: Ticket)
    requires Behaviour(rungs, ws, es) && i <= j <= k < |ws| && Admits(rungs, ws[i], t) && ws[j].up && ws[k].up
    requires Bound(rungs, ws[j], t).None?
    ensures Bound(rungs, ws[k], t).None?
  {
    StampsGrow(rungs, ws, es, i, j);
    StampsGrow(rungs, ws, es, j, k);
  }
}
