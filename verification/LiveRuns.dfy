/** The registry of in-flight runs (internal/runtime/live.go): bounded steering queues that a
    sibling request pushes into and the run drains.  QueueInput persists before it queues, so a
    full queue costs timeliness and never the input. */
module LiveRuns {
  import opened Transcript
  import opened History
  import opened Commit
  import opened ConversationLog
  import opened FoldOutcomes

  const QUEUE_DEPTH := 32

  datatype Queued = Queued(text: string, inputId: string)

  datatype Control = NotFound | Denied | Delivered

  /** Pushing without blocking: a full queue drops the message. */
  function Pushed(queue: seq<Queued>, m: Queued): seq<Queued> {
    if |queue| < QUEUE_DEPTH then queue + [m] else queue
  }

  class LiveRun {
    const project: string
    const canWrite: bool
    var steer: seq<Queued>
    var followup: seq<Queued>

    constructor (project: string, canWrite: bool)
      ensures this.project == project && this.canWrite == canWrite && steer == [] && followup == []
    {
      this.project, this.canWrite := project, canWrite;
      steer, followup := [], [];
    }

    predicate Bounded()
      reads this
    {
      |steer| <= QUEUE_DEPTH && |followup| <= QUEUE_DEPTH
    }

    method Push(toFollowup: bool, m: Queued)
      requires Bounded()
      modifies this
      ensures Bounded()
      ensures steer == if toFollowup then old(steer) else Pushed(old(steer), m)
      ensures followup == if toFollowup then Pushed(old(followup), m) else old(followup)
    {
      if toFollowup {
        if |followup| < QUEUE_DEPTH { followup := followup + [m]; }
      } else {
        if |steer| < QUEUE_DEPTH { steer := steer + [m]; }
      }
    }

    /** A turn boundary takes everything that has arrived, in order. */
    method DrainSteer() returns (out: seq<Queued>)
      modifies this`steer
      ensures out == old(steer) && steer == []
    {
      out := [];
      while steer != []
        invariant out + steer == old(steer)
        decreases |steer|
      {
        out := out + [steer[0]];
        steer := steer[1..];
      }
    }

    method DrainFollowup() returns (out: seq<Queued>)
      modifies this`followup
      ensures out == old(followup) && followup == []
    {
      out := [];
      while followup != []
        invariant out + followup == old(followup)
        decreases |followup|
      {
        out := out + [followup[0]];
        followup := followup[1..];
      }
    }
  }

  class LiveRegistry {
    var sessions: map<string, LiveRun>

    constructor ()
      ensures sessions == map[] && Valid()
    {
      sessions := map[];
    }

    /** Each session has a run of its own, with bounded queues. */
    ghost predicate Valid()
      reads this, sessions.Values
    {
      && (forall s :: s in sessions ==> s != "" && sessions[s].Bounded())
      && (forall s, t :: s in sessions && t in sessions && s != t ==> sessions[s] != sessions[t])
    }

    /** A second run for the same session supersedes the first. */
    method Register(session: string, project: string, canWrite: bool) returns (run: LiveRun?)
      requires Valid()
      modifies this
      ensures Valid()
      ensures session == "" ==> run == null && sessions == old(sessions)
      ensures session != "" ==>
                && run != null && fresh(run) && sessions == old(sessions)[session := run]
                && run.project == project && run.canWrite == canWrite && run.steer == [] && run.followup == []
      ensures session != "" ==>
                forall p, s :: Lookup(p, s) == if s == session then (if p == project then run else null) else old(Lookup(p, s))
    {
      if session == "" { return null; }
      run := new LiveRun(project, canWrite);
      sessions := sessions[session := run];
    }

    method Unregister(session: string)
      requires Valid()
      modifies this
      ensures Valid() && sessions == old(sessions) - {session}
      ensures forall p, s :: Lookup(p, s) == if s == session then null else old(Lookup(p, s))
    {
      sessions := sessions - {session};
    }

    /** The live run of a session, for its own project only. */
    function Lookup(project: string, session: string): (run: LiveRun?)
      reads this, sessions.Values
      ensures run != null <==> session != "" && session in sessions && sessions[session].project == project
      ensures run != null ==> run == sessions[session]
    {
      if session == "" || session !in sessions || sessions[session].project != project then null
      else sessions[session]
    }

    /** What the caller of a control request is told. */
    ghost function Verdict(project: string, session: string, canWrite: bool): Control
      reads this, sessions.Values
    {
      var run := Lookup(project, session);
      if run == null then NotFound else if run.canWrite && !canWrite then Denied else Delivered
    }

    /** Steer and FollowUp: a message for the next turn, dropped when the queue is full. */
    method Send(project: string, session: string, toFollowup: bool, text: string, canWrite: bool) returns (r: Control)
      requires Valid()
      modifies sessions.Values
      ensures Valid() && sessions == old(sessions) && r == old(Verdict(project, session, canWrite))
      ensures forall s :: s in sessions && (s != session || !r.Delivered?) ==> unchanged(sessions[s])
      ensures r.Delivered? ==>
                var run, m := sessions[session], Queued(text, "");
                && run.steer == (if toFollowup then old(run.steer) else Pushed(old(run.steer), m))
                && run.followup == (if toFollowup then Pushed(old(run.followup), m) else old(run.followup))
      ensures r == if session == "" || session !in sessions || sessions[session].project != project then NotFound
                   else if sessions[session].canWrite && !canWrite then Denied else Delivered
      ensures r.Delivered? ==>
                var (was, now) := if toFollowup then (old(sessions[session].followup), sessions[session].followup)
                                  else (old(sessions[session].steer), sessions[session].steer);
                now == if |was| < 32 then was + [Queued(text, "")] else was
    {
      var run := Lookup(project, session);
      if run == null { return NotFound; }
      if run.canWrite && !canWrite { return Denied; }
      run.Push(toFollowup, Queued(text, ""));
      return Delivered;
    }

    /** Persist the input in the conversation, then offer it to the live run.  persists is whether
        the append succeeded; without a live run, without authority or without the append nothing
        changes, and with it the input is in the folded transcript, queued or not. */
    method QueueInput(project: string, session: string, toFollowup: bool, canWrite: bool,
                      store: Store, id: string, text: string, persists: bool) returns (r: Control, failed: bool)
      requires Valid() && store.Valid() && FreshId(store.log, id) && text != ""
      requires Fold(Path(store.log, store.leaf)).Success?
      modifies sessions.Values, store
      ensures Valid() && store.Valid() && sessions == old(sessions)
      ensures failed <==> old(Verdict(project, session, canWrite)).Delivered? && !persists
      ensures r == if failed then NotFound else old(Verdict(project, session, canWrite))
      ensures r.Delivered? <==>
                && session != "" && session in sessions && sessions[session].project == project
                && (sessions[session].canWrite ==> canWrite) && persists
      ensures !r.Delivered? ==>
                store.log == old(store.log) && store.leaf == old(store.leaf)
                && forall s :: s in sessions ==> unchanged(sessions[s])
      ensures r.Delivered? ==>
                && store.log == old(store.log) + [Node(Entry(id, Chat(User, text, false, false)), old(store.leaf))]
                && store.leaf == id
                && Fold(Path(store.log, store.leaf)).Success?
                && Fold(Path(store.log, store.leaf)).value.messages
                   == old(Fold(Path(store.log, store.leaf))).value.messages + [Message(User, text, id, "", "", "", [], "")]
      ensures r.Delivered? ==>
                var run, m := sessions[session], Queued(text, id);
                && run.steer == (if toFollowup then old(run.steer) else Pushed(old(run.steer), m))
                && run.followup == (if toFollowup then Pushed(old(run.followup), m) else old(run.followup))
    {
      var run := Lookup(project, session);
      if run == null { return NotFound, false; }
      if run.canWrite && !canWrite { return Denied, false; }
      if !persists { return NotFound, true; }
      hide Fold, Path, WellFormed, FreshId, Known;
      TypedEntryFolds(store.log, store.leaf, id, text);
      store.Append(id, Chat(User, text, false, false));
      run.Push(toFollowup, Queued(text, id));
      return Delivered, false;
    }
  }

  /** A live run answers to one project and one session only. */
  lemma OneAddressPerRun(registry: LiveRegistry, project: string, session: string, project': string, session': string)
    requires registry.Valid() && registry.Lookup(project, session) != null
    requires registry.Lookup(project, session) == registry.Lookup(project', session')
    ensures project == project' && session == session'
    ensures registry.Lookup(project, session).project == project
  {
  }

  lemma TypedEntryFolds(log: seq<Node>, leaf: string, id: string, text: string)
    requires WellFormed(log) && Known(log, leaf) && FreshId(log, id) && text != "" && Fold(Path(log, leaf)).Success?
    ensures var path := Path(log + [Node(Entry(id, Chat(User, text, false, false)), leaf)], id);
            Fold(path).Success?
            && Fold(path).value.messages == Fold(Path(log, leaf)).value.messages + [Message(User, text, id, "", "", "", [], "")]
  {
    hide Fold, Path;
    var e := Entry(id, Chat(User, text, false, false));
    EntryOutcome(Path(log, leaf), e);
    Grow(log, Node(e, leaf), id);
  }
}
