/** The trace sink's delta encoding (internal/runtime/trace_sink.go): each model call is stored as a
    prefix of the previous call of its session plus the messages that follow, and a bounded cache
    remembers the previous call.  Calls overlap: one is begun by reading the cache and finished by
    the insert and the cache update, with anything in between. */
module TraceSink {
  import opened Wrappers

  /** Everything sameMessage compares, whatever else a message carries, and whether it marshals to
      JSON. */
  datatype Message = Message(compared: string, rest: string, marshals: bool)

  predicate SameMessage(a: Message, b: Message) { a.compared == b.compared }

  predicate Same(xs: seq<Message>, ys: seq<Message>) {
    |xs| == |ys| && forall k :: 0 <= k < |xs| ==> SameMessage(xs[k], ys[k])
  }

  /** json.Marshal of a message list fails when it fails on one message. */
  predicate Marshals(ms: seq<Message>) { forall k :: 0 <= k < |ms| ==> ms[k].marshals }

  // ---------- the prefix diff ----------

  predicate AgreesUpTo(a: seq<Message>, b: seq<Message>, n: int) {
    0 <= n <= |a| && n <= |b| && forall k :: 0 <= k < n ==> SameMessage(a[k], b[k])
  }

  /** The length of the longest prefix on which the two contexts agree. */
  function CommonPrefix(a: seq<Message>, b: seq<Message>): (n: nat)
    ensures AgreesUpTo(a, b, n) && !AgreesUpTo(a, b, n + 1)
  {
    if a == [] || b == [] || !SameMessage(a[0], b[0]) then 0 else
      var n := CommonPrefix(a[1..], b[1..]);
      AgreeBehindFirst(a, b, n);
      AgreeBehindFirst(a, b, n + 1);
      n + 1
  }

  lemma AgreeBehindFirst(a: seq<Message>, b: seq<Message>, n: nat)
    requires a != [] && b != [] && SameMessage(a[0], b[0])
    ensures AgreesUpTo(a, b, n + 1) <==> AgreesUpTo(a[1..], b[1..], n)
  {
    if AgreesUpTo(a[1..], b[1..], n) {
      forall k | 0 < k < n + 1 ensures SameMessage(a[k], b[k]) {
        assert a[k] == a[1..][k - 1] && b[k] == b[1..][k - 1];
      }
    }
  }

  method ComputeCommonPrefix(a: seq<Message>, b: seq<Message>) returns (n: nat)
    ensures n == CommonPrefix(a, b)
  {
    n := 0;
    while n < |a| && n < |b| && SameMessage(a[n], b[n])
      invariant AgreesUpTo(a, b, n)
    {
      n := n + 1;
    }
    LongestIsUnique(a, b, n, CommonPrefix(a, b));
  }

  lemma LongestIsUnique(a: seq<Message>, b: seq<Message>, n: nat, m: nat)
    requires AgreesUpTo(a, b, n) && !AgreesUpTo(a, b, n + 1)
    requires AgreesUpTo(a, b, m) && !AgreesUpTo(a, b, m + 1)
    ensures n == m
  {
  }

  // ---------- the cache ----------

  /** The session a context belongs to: the trace id and the session within it. */
  datatype Key = Key(trace: string, session: string)

  /** A session's previous call; seq 0 when there is none. */
  datatype Context = Context(messages: seq<Message>, seq_: nat, sinceKey: nat)

  const NO_CONTEXT := Context([], 0, 0)

  datatype Slot = Slot(key: Key, context: Context)

  const MAX_TRACED_SESSIONS := 512

  const FORCED_KEYFRAME_INTERVAL := 100

  function Get(slots: seq<Slot>, key: Key): (c: Context) {
    if slots == [] then NO_CONTEXT else if slots[0].key == key then slots[0].context else Get(slots[1..], key)
  }

  function Without(slots: seq<Slot>, key: Key): seq<Slot> {
    if slots == [] then []
    else (if slots[0].key == key then [] else [slots[0]]) + Without(slots[1..], key)
  }

  predicate OneSlotEach(slots: seq<Slot>) { forall i, j :: 0 <= i < j < |slots| ==> slots[i].key != slots[j].key }

  lemma {:induction false} WithoutKey(slots: seq<Slot>, key: Key)
    ensures forall s :: s in Without(slots, key) <==> s in slots && s.key != key
    ensures |Without(slots, key)| <= |slots|
    ensures OneSlotEach(slots) ==> OneSlotEach(Without(slots, key))
    ensures (exists s :: s in slots && s.key == key) ==> |Without(slots, key)| < |slots|
  {
    if slots != [] {
      WithoutKey(slots[1..], key);
      var rest := Without(slots[1..], key);
      assert OneSlotEach(slots) ==> OneSlotEach(slots[1..]);
      if OneSlotEach(slots) {
        forall s | s in rest ensures s.key != slots[0].key {
          var k :| 0 <= k < |slots[1..]| && slots[1..][k] == s;
          assert slots[k + 1] == s;
        }
      }
    }
  }

  lemma {:induction false} WithoutAbsent(slots: seq<Slot>, key: Key)
    ensures (forall s :: s in slots ==> s.key != key) ==> Without(slots, key) == slots
  {
    if slots != [] { WithoutAbsent(slots[1..], key); }
  }

  lemma {:induction false} WithoutAt(slots: seq<Slot>, i: nat)
    requires i < |slots| && OneSlotEach(slots)
    ensures Without(slots, slots[i].key) == slots[..i] + slots[i + 1..]
  {
    if i == 0 {
      WithoutAbsent(slots[1..], slots[0].key);
    } else {
      WithoutAt(slots[1..], i - 1);
    }
  }

  /** slots with s in front, in place of what its key had, and no more than max of them. */
  function Fronted(slots: seq<Slot>, s: Slot, max: nat): seq<Slot> {
    var all := [s] + Without(slots, s.key);
    if |all| <= max then all else all[..max]
  }

  lemma FrontedMoves(slots: seq<Slot>, s: Slot, max: nat)
    requires OneSlotEach(slots) && |slots| <= max && max > 0
    ensures forall i :: 0 <= i < |slots| && slots[i].key == s.key ==>
              Fronted(slots, s, max) == [s] + slots[..i] + slots[i + 1..]
    ensures (forall x :: x in slots ==> x.key != s.key) ==>
              Fronted(slots, s, max) == [s] + if |slots| < max then slots else slots[..max - 1]
  {
    forall i | 0 <= i < |slots| && slots[i].key == s.key
      ensures Fronted(slots, s, max) == [s] + slots[..i] + slots[i + 1..]
    {
      WithoutAt(slots, i);
      assert [s] + (slots[..i] + slots[i + 1..]) == [s] + slots[..i] + slots[i + 1..];
    }
    WithoutAbsent(slots, s.key);
  }

  /** An LRU list, most recently used in front. */
  class ContextCache {
    const max: nat
    var order: seq<Slot>

    constructor (max: nat)
      ensures this.max == max && order == [] && Valid()
    {
      this.max := max;
      order := [];
    }

    predicate Valid()
      reads this
    {
      |order| <= max && OneSlotEach(order)
    }

    method Lookup(key: Key) returns (found: bool, c: Context)
      requires Valid()
      modifies this
      ensures Valid() && c == Get(old(order), key) && (found <==> exists s :: s in old(order) && s.key == key)
      ensures forall s :: s in order <==> s in old(order)
      ensures order == if found then Fronted(old(order), Slot(key, c), max) else old(order)
      ensures forall i :: 0 <= i < |old(order)| && old(order)[i].key == key ==>
                c == old(order)[i].context && order == [old(order)[i]] + old(order)[..i] + old(order)[i + 1..]
      ensures !found ==> c == Context([], 0, 0)
    {
      hide Without;
      var i := 0;
      while i < |order| && order[i].key != key
        invariant 0 <= i <= |order| && forall k :: 0 <= k < i ==> order[k].key != key
        invariant Get(order, key) == Get(order[i..], key)
      {
        i := i + 1;
      }
      if i == |order| { return false, NO_CONTEXT; }
      c := order[i].context;
      WithoutKey(order, key);
      forall s | s in order && s.key == key ensures s == order[i] {
        var k :| 0 <= k < |order| && order[k] == s;
      }
      FrontedMoves(order, Slot(key, c), max);
      order := [order[i]] + Without(order, key);
      found := true;
    }

    method Put(key: Key, c: Context)
      requires Valid() && max > 0
      modifies this
      ensures Valid() && order == Fronted(old(order), Slot(key, c), max)
      ensures forall s :: s in order ==> s == Slot(key, c) || (s in old(order) && s.key != key)
      ensures forall i :: 0 <= i < |old(order)| && old(order)[i].key == key ==>
                order == [Slot(key, c)] + old(order)[..i] + old(order)[i + 1..]
      ensures (forall s :: s in old(order) ==> s.key != key) ==>
                order == [Slot(key, c)] + if |old(order)| < max then old(order) else old(order)[..max - 1]
    {
      hide Without;
      WithoutKey(order, key);
      FrontedMoves(order, Slot(key, c), max);
      ghost var all := [Slot(key, c)] + Without(order, key);
      order := [Slot(key, c)] + Without(order, key);
      while |order| > max
        invariant OneSlotEach(all) && order == all[..|order|] && (|all| <= max || max <= |order|)
        invariant |all| <= max ==> order == all
        invariant forall s :: s in order ==> s == Slot(key, c) || (s in old(order) && s.key != key)
      {
        order := order[..|order| - 1];
      }
    }

    method Forget(key: Key)
      requires Valid()
      modifies this
      ensures Valid() && order == Without(old(order), key)
      ensures forall s :: s in order <==> s in old(order) && s.key != key
    {
      WithoutKey(order, key);
      order := Without(order, key);
    }
  }

  // ---------- encoding one call ----------

  /** One recorded request. */
  datatype Call = Call(traceId: string, sessionKey: string, messages: seq<Message>)

  /** The stored row: messages_json decodes to delta. */
  datatype Row = Row(run: string, session: string, seq_: nat, baseSeq: nat, keepPrefix: int, delta: seq<Message>)

  /** The run a trace id hangs off: the part before the first slash. */
  function RootRun(trace: string): string {
    if trace == "" || trace[0] == '/' then "" else [trace[0]] + RootRun(trace[1..])
  }

  function KeyOf(call: Call): Key {
    Key(call.traceId, if call.sessionKey == "" then call.traceId else call.sessionKey)
  }

  datatype Diff = Diff(base: nat, keep: nat, delta: seq<Message>)

  function EncodeContext(prev: Context, msgs: seq<Message>): Diff {
    if prev.seq_ == 0 || prev.sinceKey >= FORCED_KEYFRAME_INTERVAL then Diff(0, 0, msgs)
    else
      var keep := CommonPrefix(prev.messages, msgs);
      if keep == 0 then Diff(0, 0, msgs) else Diff(prev.seq_, keep, msgs[keep..])
  }

  method EncodeTracedContext(prev: Context, msgs: seq<Message>) returns (d: Diff)
    ensures d == EncodeContext(prev, msgs)
  {
    if prev.seq_ == 0 || prev.sinceKey >= FORCED_KEYFRAME_INTERVAL { return Diff(0, 0, msgs); }
    var keep := ComputeCommonPrefix(prev.messages, msgs);
    if keep == 0 { return Diff(0, 0, msgs); }
    return Diff(prev.seq_, keep, msgs[keep..]);
  }

  /** What is marshalled is the delta: a message the base already holds is not looked at again. */
  predicate Drops(prev: Context, call: Call) { !Marshals(EncodeContext(prev, call.messages).delta) }

  /** The row's context columns: a delta that does not marshal is dropped, and the base with it. */
  function Stored(prev: Context, call: Call): Diff {
    if Drops(prev, call) then Diff(0, 0, []) else EncodeContext(prev, call.messages)
  }

  function Remembered(prev: Context, call: Call, seq_: nat): Context {
    Context(call.messages, seq_, if Stored(prev, call).base != 0 then prev.sinceKey + 1 else 0)
  }

  function RowOf(prev: Context, call: Call, seq_: nat): Row {
    var d := Stored(prev, call);
    Row(RootRun(call.traceId), KeyOf(call).session, seq_, d.base, d.keep, d.delta)
  }

  /** What a row stores.  Over a previous call it is the prefix the two share and the messages that
      follow, unless they share none, there is no previous call, or a hundred deltas stand behind its
      last keyframe; then it is the whole request.  Either way nothing is kept that does not marshal. */
  lemma RowExactlyWhen(prev: Context, call: Call, seq_: nat)
    ensures var row := RowOf(prev, call, seq_);
            && row.seq_ == seq_ && row.session == (if call.sessionKey == "" then call.traceId else call.sessionKey)
            && if prev.seq_ != 0 && prev.sinceKey < 100 && AgreesUpTo(prev.messages, call.messages, 1)
               then exists keep: nat :: SharesExactly(prev.messages, call.messages, keep) && DeltaOrNothing(row, call, prev.seq_, keep)
               else DeltaOrNothing(row, call, 0, 0)
    ensures var next := Remembered(prev, call, seq_);
            && next.messages == call.messages && next.seq_ == seq_
            && next.sinceKey == if RowOf(prev, call, seq_).baseSeq == 0 then 0 else prev.sinceKey + 1
  {
    var keep := CommonPrefix(prev.messages, call.messages);
    assert SharesExactly(prev.messages, call.messages, keep);
    assert call.messages[0..] == call.messages;
    assert AgreesUpTo(prev.messages, call.messages, 1) <==> keep > 0;
    if prev.seq_ != 0 && prev.sinceKey < 100 && keep > 0 {
      assert DeltaOrNothing(RowOf(prev, call, seq_), call, prev.seq_, keep);
    } else {
      assert DeltaOrNothing(RowOf(prev, call, seq_), call, 0, 0);
    }
  }

  predicate SharesExactly(a: seq<Message>, b: seq<Message>, n: nat) {
    && n <= |a| && n <= |b| && (forall k :: 0 <= k < n ==> a[k].compared == b[k].compared)
    && (n < |a| && n < |b| ==> a[n].compared != b[n].compared)
  }

  predicate DeltaOrNothing(row: Row, call: Call, base: nat, keep: nat) {
    && keep <= |call.messages|
    && if forall k :: keep <= k < |call.messages| ==> call.messages[k].marshals
       then row.baseSeq == base && row.keepPrefix == keep && row.delta == call.messages[keep..]
       else row.baseSeq == 0 && row.keepPrefix == 0 && row.delta == []
  }

  lemma {:induction false} RootRunIsTheHead(trace: string)
    ensures '/' !in trace ==> RootRun(trace) == trace
    ensures forall i :: 0 <= i < |trace| && trace[i] == '/' && '/' !in trace[..i] ==> RootRun(trace) == trace[..i]
  {
    if trace != "" && trace[0] != '/' {
      var rest := trace[1..];
      RootRunIsTheHead(rest);
      assert trace == [trace[0]] + rest;
      forall i | 0 <= i < |trace| && trace[i] == '/' && '/' !in trace[..i] ensures RootRun(trace) == trace[..i] {
        assert rest[i - 1] == '/' && trace[..i] == [trace[0]] + rest[..i - 1];
      }
    }
  }

  // ---------- the sink ----------

  class StoreTraceSink {
    const cache: ContextCache

    constructor ()
      ensures fresh(cache) && cache.max == 512 && cache.order == [] && cache.Valid()
    {
      cache := new ContextCache(MAX_TRACED_SESSIONS);
    }

    /** What a call does before its insert: read the cache, encode, and marshal the delta. */
    method Begin(call: Call) returns (prev: Context, diff: Diff)
      requires cache.Valid()
      modifies cache
      ensures cache.Valid() && prev == Get(old(cache.order), KeyOf(call)) && diff == Stored(prev, call)
      ensures forall s :: s in cache.order <==> s in old(cache.order)
    {
      var found;
      found, prev := cache.Lookup(KeyOf(call));
      diff := EncodeTracedContext(prev, call.messages);
      if !Marshals(diff.delta) { diff := Diff(0, 0, []); }
    }

    /** What it does after: landed is the sequence number the insert returned, None when it failed. */
    method Finish(call: Call, prev: Context, base: nat, landed: Option<nat>)
      requires cache.Valid() && cache.max > 0 && base == Stored(prev, call).base
      modifies cache
      ensures cache.Valid()
      ensures landed.None? ==> cache.order == Without(old(cache.order), KeyOf(call))
      ensures landed.Some? ==>
                var slot := Slot(KeyOf(call), Remembered(prev, call, landed.value));
                && cache.order == Fronted(old(cache.order), slot, cache.max)
                && forall s :: s in cache.order ==> s == slot || s in old(cache.order)
    {
      if landed.None? {
        cache.Forget(KeyOf(call));
        return;
      }
      var sinceKey := 0;
      if base != 0 { sinceKey := prev.sinceKey + 1; }
      cache.Put(KeyOf(call), Context(call.messages, landed.value, sinceKey));
    }
  }

  // ---------- every interleaving of calls ----------

  /** A row that landed, the call it stands for, and whether its context was dropped. */
  datatype Landed = Landed(row: Row, call: Call, sinceKey: nat, dropped: bool)

  datatype InFlight = InFlight(call: Call, prev: Context)

  /** slots is whatever of the cache has survived eviction; puts are contexts of rows that landed,
      on their way into the cache. */
  datatype World = World(slots: set<Slot>, inFlight: set<InFlight>, puts: set<Slot>, landed: seq<Landed>)

  datatype Event =
    | Begun(call: Call, prev: Context)
    | Inserted(f: InFlight)
    | Cached(slot: Slot)
    | Failed(f: InFlight)
    | Evicted(slot: Slot)

  /** The store numbers the rows of a run 1, 2, 3, ... */
  function NextSeq(landed: seq<Landed>, run: string): nat {
    if landed == [] then 1
    else
      var last, rest := landed[|landed| - 1], NextSeq(landed[..|landed| - 1], run);
      if last.row.run == run && last.row.seq_ >= rest then last.row.seq_ + 1 else rest
  }

  ghost predicate Next(w: World, e: Event, w': World) {
    match e
    case Begun(call, prev) =>
      call.traceId != "" && (prev == NO_CONTEXT || Slot(KeyOf(call), prev) in w.slots)
      && w' == w.(inFlight := w.inFlight + {InFlight(call, prev)})
    case Inserted(f) =>
      f in w.inFlight
      && var seq_ := NextSeq(w.landed, RootRun(f.call.traceId));
         w' == World(w.slots, w.inFlight - {f}, w.puts + {Slot(KeyOf(f.call), Remembered(f.prev, f.call, seq_))},
                     w.landed + [LandedRow(f, seq_)])
    case Cached(slot) =>
      slot in w.puts
      && w' == w.(slots := OtherSlots(w.slots, slot.key) + {slot}, puts := w.puts - {slot})
    case Failed(f) =>
      f in w.inFlight
      && w' == w.(slots := OtherSlots(w.slots, KeyOf(f.call)), inFlight := w.inFlight - {f})
    case Evicted(slot) => w' == w.(slots := w.slots - {slot})
  }

  function LandedRow(f: InFlight, seq_: nat): Landed {
    Landed(RowOf(f.prev, f.call, seq_), f.call, Remembered(f.prev, f.call, seq_).sinceKey, Drops(f.prev, f.call))
  }

  function OtherSlots(slots: set<Slot>, key: Key): set<Slot> { set s | s in slots && s.key != key }

  const EMPTY := World({}, {}, {}, [])

  ghost predicate Behaviour(ws: seq<World>, es: seq<Event>) {
    && |ws| == |es| + 1 && ws[0] == EMPTY
    && forall k :: 0 <= k < |es| ==> Next(ws[k], es[k], ws[k + 1])
  }

  // ---------- what the rows keep ----------

  /** A remembered context is that of a row of the same run. */
  ghost predicate Grounded(landed: seq<Landed>, trace: string, c: Context) {
    exists j :: 0 <= j < |landed| && IsContextOf(landed[j], RootRun(trace), c)
  }

  predicate IsContextOf(l: Landed, run: string, c: Context) {
    l.row.run == run && l.row.seq_ == c.seq_ && l.call.messages == c.messages && l.sinceKey == c.sinceKey
  }

  /** Row i is a keyframe, a dropped context, or a delta over an earlier row of its run. */
  ghost predicate LinkOk(landed: seq<Landed>, i: nat)
    requires i < |landed|
  {
    var l := landed[i];
    && l.row.seq_ > 0
    && l.row.run == RootRun(l.call.traceId)
    && (forall j :: 0 <= j < i && landed[j].row.run == l.row.run ==> landed[j].row.seq_ < l.row.seq_)
    && (l.dropped ==> l.row.baseSeq == 0 && l.row.delta == [] && !Marshals(l.call.messages))
    && (!l.dropped ==> Marshals(l.row.delta))
    && (!l.dropped && l.row.baseSeq == 0 ==> l.row.delta == l.call.messages)
    && (l.row.baseSeq == 0 ==> l.sinceKey == 0)
    && (l.row.baseSeq != 0 ==> exists j :: 0 <= j < i && Extends(landed[j], l))
  }

  predicate Extends(base: Landed, l: Landed) {
    && base.row.run == l.row.run && base.row.seq_ == l.row.baseSeq
    && 0 < l.row.keepPrefix && AgreesUpTo(base.call.messages, l.call.messages, l.row.keepPrefix)
    && l.row.delta == l.call.messages[l.row.keepPrefix..]
    && l.sinceKey == base.sinceKey + 1 <= FORCED_KEYFRAME_INTERVAL
  }

  ghost predicate Inv(w: World) {
    && (forall i :: 0 <= i < |w.landed| ==> LinkOk(w.landed, i))
    && (forall s :: s in w.slots + w.puts ==> Grounded(w.landed, s.key.trace, s.context))
    && (forall f :: f in w.inFlight ==> f.prev == NO_CONTEXT || Grounded(w.landed, f.call.traceId, f.prev))
  }

  lemma {:induction false} NextSeqIsFresh(landed: seq<Landed>, run: string)
    ensures NextSeq(landed, run) >= 1
    ensures NextSeq(landed, run) > 1 ==>
              exists j :: 0 <= j < |landed| && landed[j].row.run == run && landed[j].row.seq_ == NextSeq(landed, run) - 1
    ensures forall j :: 0 <= j < |landed| && landed[j].row.run == run ==> landed[j].row.seq_ < NextSeq(landed, run)
  {
    if landed != [] {
      NextSeqIsFresh(landed[..|landed| - 1], run);
    }
  }

  lemma GroundedGrows(landed: seq<Landed>, l: Landed, trace: string, c: Context)
    requires Grounded(landed, trace, c)
    ensures Grounded(landed + [l], trace, c)
  {
    var j :| 0 <= j < |landed| && IsContextOf(landed[j], RootRun(trace), c);
    assert IsContextOf((landed + [l])[j], RootRun(trace), c);
  }

  /** A delta that does not marshal is part of a request that does not. */
  lemma DroppedDoesNotMarshal(prev: Context, call: Call)
    ensures Drops(prev, call) ==> !Marshals(call.messages)
  {
    var d := EncodeContext(prev, call.messages);
    assert d.delta == call.messages[d.keep..];
    if Drops(prev, call) {
      var k :| 0 <= k < |d.delta| && !d.delta[k].marshals;
      assert !call.messages[d.keep + k].marshals;
    }
  }

  lemma NewLinkOk(landed: seq<Landed>, f: InFlight)
    requires f.prev == NO_CONTEXT || Grounded(landed, f.call.traceId, f.prev)
    ensures var seq_ := NextSeq(landed, RootRun(f.call.traceId));
            LinkOk(landed + [LandedRow(f, seq_)], |landed|)
  {
    var seq_ := NextSeq(landed, RootRun(f.call.traceId));
    var l := LandedRow(f, seq_);
    NextSeqIsFresh(landed, RootRun(f.call.traceId));
    DroppedDoesNotMarshal(f.prev, f.call);
    if l.row.baseSeq != 0 {
      var j :| 0 <= j < |landed| && IsContextOf(landed[j], RootRun(f.call.traceId), f.prev);
      assert Extends((landed + [l])[j], l);
    }
  }

  lemma LinkStays(landed: seq<Landed>, l: Landed, i: nat)
    requires i < |landed| && LinkOk(landed, i)
    ensures LinkOk(landed + [l], i)
  {
    if landed[i].row.baseSeq != 0 {
      var j :| 0 <= j < i && Extends(landed[j], landed[i]);
      assert Extends((landed + [l])[j], (landed + [l])[i]);
    }
  }

  lemma StepKeepsInv(w: World, e: Event, w': World)
    requires Inv(w) && Next(w, e, w')
    ensures Inv(w')
  {
    if e.Inserted? {
      hide LinkOk;
      hide Grounded;
      var f := e.f;
      var seq_ := NextSeq(w.landed, RootRun(f.call.traceId));
      var l := LandedRow(f, seq_);
      NewLinkOk(w.landed, f);
      forall i | 0 <= i < |w.landed| ensures LinkOk(w'.landed, i) { LinkStays(w.landed, l, i); }
      forall s | s in w'.slots + w'.puts ensures Grounded(w'.landed, s.key.trace, s.context) {
        if s in w.slots + w.puts {
          GroundedGrows(w.landed, l, s.key.trace, s.context);
        } else {
          NewContextGrounded(w.landed, l, s.context);
        }
      }
      forall g | g in w'.inFlight ensures g.prev == NO_CONTEXT || Grounded(w'.landed, g.call.traceId, g.prev) {
        if g.prev != NO_CONTEXT { GroundedGrows(w.landed, l, g.call.traceId, g.prev); }
      }
    }
  }

  lemma NewContextGrounded(landed: seq<Landed>, l: Landed, c: Context)
    requires IsContextOf(l, RootRun(l.call.traceId), c)
    ensures Grounded(landed + [l], l.call.traceId, c)
  {
    assert (landed + [l])[|landed|] == l;
  }

  lemma {:induction false} BehaviourKeepsInv(ws: seq<World>, es: seq<Event>, k: nat)
    requires Behaviour(ws, es) && k < |ws|
    ensures Inv(ws[k])
  {
    if k > 0 {
      BehaviourKeepsInv(ws, es, k - 1);
      StepKeepsInv(ws[k - 1], es[k - 1], ws[k]);
    }
  }
}
