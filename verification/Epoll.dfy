/**
The registration half of the epoll event loop (`evloop.epoll.c`): watching, unwatching and
closing descriptors, the flush that tells the kernel and frees closed pollers, and the dispatch
of a batch of events during which callbacks may do all of these.

`s` is the state the objects mirror (`Registry`); its invariant holds between all operations.  The
pollers are found through the hash table of `KHash`.
*/
module Epoll {
  import opened Probe
  import opened Registry
  import KHash

  /** The pollers of `ds`, linked through `next` from `first`. */
  ghost predicate Linked(first: Poller?, ds: seq<Poller>)
    reads ds`next
  {
    if ds == [] then first == null else first == ds[0] && Linked(ds[0].next, ds[1..])
  }

  /** What a callback can do to the loop, and to its watches. */
  datatype Action =
    | DoSet(w: Watch)
    | DoWatch(w: Watch, fd: int, dir: Direction)
    | DoUnwatch(w: Watch)
    | DoClose(fd: int)
  {
    function Watches(): set<Watch> {
      if DoClose? then {} else {w}
    }
  }

  /** The actions of a reader's and of a writer's callback. */
  datatype Handlers = Handlers(reading: seq<Action>, writing: seq<Action>) {
    function Watches(): set<Watch> {
      (set a, w | a in reading && w in a.Watches() :: w) + (set a, w | a in writing && w in a.Watches() :: w)
    }
  }

  /** A descriptor that became ready, with the events it has. */
  datatype Ready = Ready(fd: int, events: set<Bit>)

  /** An entry of the array `epoll_wait` fills. */
  datatype Event = Event(poller: Poller, events: set<Bit>)

  /** A call of a watcher's callback. */
  datatype Call = Call(poller: Poller, watch: Watch)

  /** The watcher for direction `dir` that event `e` reaches in state `s`. */
  function SlotCall(s: State, e: Event, dir: Direction): seq<Call> {
    if e.poller in s.polls && Slot(s.polls[e.poller], dir) != null
       && e.events * (if dir == Read then {In, Hup} else {Out}) != {} then
      [Call(e.poller, Slot(s.polls[e.poller], dir))]
    else []
  }

  function ReadCall(s: State, e: Event): seq<Call> {
    SlotCall(s, e, Read)
  }

  function WriteCall(s: State, e: Event): seq<Call> {
    SlotCall(s, e, Write)
  }

  lemma SlotCallIs(s: State, e: Event, dir: Direction)
    requires e.poller in s.polls
    ensures var q := s.polls[e.poller];
            var w := if dir == Read then q.rd else q.wr;
            SlotCall(s, e, dir) == if w != null && e.events * (if dir == Read then {In, Hup} else {Out}) != {} then
                                     [Call(e.poller, w)]
                                   else []
  {
  }

  /** A poller is called only while it is its descriptor's poller; one that was closed is passed over. */
  lemma CallsAreCurrent(s: State, e: Event)
    requires Inv(s)
    ensures forall c | c in ReadCall(s, e) + WriteCall(s, e) ::
              c.poller in s.polls && s.polls[c.poller].fd in s.pollers && s.pollers[s.polls[c.poller].fd] == c.poller
    ensures e.poller in s.polls && !Open(s.polls[e.poller]) ==> ReadCall(s, e) == [] && WriteCall(s, e) == []
  {
  }

  /** The dispatch loop's tests: who is called for which events. */
  lemma CallsExactly(s: State, e: Event)
    ensures ReadCall(s, e) == if e.poller in s.polls && s.polls[e.poller].rd != null
                                 && (In in e.events || Hup in e.events)
                              then [Call(e.poller, s.polls[e.poller].rd)] else []
    ensures WriteCall(s, e) == if e.poller in s.polls && s.polls[e.poller].wr != null && Out in e.events
                               then [Call(e.poller, s.polls[e.poller].wr)] else []
  {
    assert In in e.events ==> In in e.events * {In, Hup};
    assert Hup in e.events ==> Hup in e.events * {In, Hup};
    assert Out in e.events ==> Out in e.events * {Out};
  }

  /** `ops` are operations other than the flush, and lead from `s` to `t`. */
  ghost predicate Did(s: State, ops: seq<Op>, t: State) {
    Inv(s) && WithoutFlush(ops) && Runs(s, ops) && t == After(s, ops)
  }

  /** `table` maps the descriptors to the pollers of `pollers`. */
  ghost predicate Finds(table: map<int, Poller?>, pollers: map<int, Poller>) {
    table.Keys == pollers.Keys && forall fd | fd in pollers :: table[fd] == pollers[fd]
  }

  lemma FindsAdd(table: map<int, Poller?>, pollers: map<int, Poller>, fd: int, p: Poller)
    requires Finds(table, pollers)
    ensures Finds(table[fd := p], pollers[fd := p])
  {
  }

  lemma FindsLess(table: map<int, Poller?>, pollers: map<int, Poller>, fd: int)
    requires Finds(table, pollers)
    ensures Finds(table - {fd}, pollers - {fd})
  {
  }

  /** What a table entry is. */
  lemma FindsAt(table: map<int, Poller?>, pollers: map<int, Poller>)
    requires Finds(table, pollers)
    ensures |table| == |pollers|
    ensures forall fd :: fd in table <==> fd in pollers
    ensures forall fd | fd in pollers :: table[fd] == pollers[fd]
  {
    assert |table| == |table.Keys| && |pollers| == |pollers.Keys|;
  }

  /** The source's assertions and rules, and the largest table, let a callback do `a` in state `s`. */
  ghost predicate Allowed(s: State, a: Action) {
    && a.Watches() <= s.watches.Keys
    && match a
       case DoSet(w) => true
       case DoWatch(w, fd, dir) =>
         fd >= 0 && w in s.watches && s.watches[w].fn && SlotFree(s, fd, dir) && |s.pollers| < KHash.MAX_KEYS
       case DoUnwatch(w) => w in s.watches && Watching(s, w, s.watches[w].poll)
       case DoClose(fd) => true
  }

  /** `op` is the call that `a` asks for; which new poller a watch may need is the allocator's choice. */
  ghost predicate IsCall(a: Action, op: Op) {
    match a
    case DoSet(w) => op == OpSet(w)
    case DoWatch(w, fd, dir) => op.OpWatch? && op.w == w && op.fd == fd && op.dir == dir
    case DoUnwatch(w) => op == OpUnwatch(w)
    case DoClose(fd) => op == OpClose(fd)
  }

  /** What an action comes to: its call, or nothing where it is not allowed. */
  ghost predicate Takes(s: State, a: Action, op: Op) {
    if Allowed(s, a) then IsCall(a, op) && Legal(s, op) else op == OpNone
  }

  /** A callback that does `acts` takes the state from `s` to `t`, by the operations `ops`. */
  ghost predicate Performed(s: State, acts: seq<Action>, ops: seq<Op>, t: State)
    decreases |acts|
  {
    if acts == [] then ops == [] && t == s
    else Inv(s) && ops != [] && Takes(s, acts[0], ops[0]) && Performed(Next(s, ops[0]), acts[1..], ops[1..], t)
  }

  /** Action `a` in state `s` came to `op` and led to `t`. */
  ghost predicate Took(s: State, a: Action, op: Op, t: State) {
    Inv(s) && Takes(s, a, op) && (TakesLegal(s, a, op); t == Next(s, op))
  }

  lemma TookIs(s: State, a: Action, op: Op, t: State)
    requires Took(s, a, op, t)
    ensures Inv(s) && Takes(s, a, op) && Legal(s, op) && t == Next(s, op)
  {
    hide Inv, Takes, Next, Legal;
    TakesLegal(s, a, op);
  }

  lemma TookNothing(s: State, a: Action)
    requires Inv(s)
    ensures !Allowed(s, a) ==> Took(s, a, OpNone, s)
  {
    hide Inv, Allowed;
  }

  lemma TookSet(s: State, w: Watch)
    requires Inv(s) && w in s.watches
    ensures Took(s, DoSet(w), OpSet(w), FnSet(s, w))
  {
    hide Inv, FnSet;
  }

  lemma TookWatch(s: State, w: Watch, fd: int, dir: Direction, p: Poller)
    requires Inv(s) && Allowed(s, DoWatch(w, fd, dir)) && Serves(s, fd, p) && w in s.watches
    ensures Took(s, DoWatch(w, fd, dir), OpWatch(w, fd, dir, p), WatchFd(s, w, fd, dir, p))
  {
    hide Inv, WatchFd, Serves, SlotFree;
  }

  lemma WatchAllowed(s: State, w: Watch, fd: int, dir: Direction)
    ensures Allowed(s, DoWatch(w, fd, dir)) <==>
              fd >= 0 && w in s.watches && s.watches[w].fn && SlotFree(s, fd, dir) && |s.pollers| < KHash.MAX_KEYS
  {
  }

  lemma UnwatchAllowed(s: State, w: Watch)
    requires w in s.watches
    ensures Allowed(s, DoUnwatch(w)) <==> Watching(s, w, s.watches[w].poll)
  {
    hide Watching;
  }

  lemma ActionWatches(a: Action)
    ensures !a.DoClose? ==> a.Watches() == {a.w}
    ensures a.DoClose? ==> a.Watches() == {}
  {
  }

  lemma TookUnwatch(s: State, w: Watch)
    requires Inv(s) && w in s.watches && Watching(s, w, s.watches[w].poll)
    ensures Took(s, DoUnwatch(w), OpUnwatch(w), Unwatched(s, w))
  {
    hide Inv, Unwatched, Watching;
  }

  lemma TookClose(s: State, fd: int)
    requires Inv(s)
    ensures fd in s.pollers ==> s.pollers[fd] in s.polls
    ensures Took(s, DoClose(fd), OpClose(fd), CloseFd(s, fd))
  {
    hide Listed, Known, Synced, Attached, CloseFd;
  }

  lemma PerformedNone(s: State)
    ensures Performed(s, [], [], s)
  {
  }

  lemma {:induction false} PerformedOn(s: State, acts: seq<Action>, i: nat, ops: seq<Op>, t: State, op: Op)
    requires i < |acts| && Performed(s, acts[..i], ops, t) && Inv(t) && Takes(t, acts[i], op)
    ensures Legal(t, op) && Performed(s, acts[..i + 1], ops + [op], Next(t, op))
    decreases i
  {
    hide Inv, Takes, Next;
    TakesLegal(t, acts[i], op);
    if i == 0 {
      assert acts[..1][1..] == [] && ([op] + [])[1..] == [];
      assert ops + [op] == [op];
    } else {
      TakesLegal(s, acts[0], ops[0]);
      assert acts[1..][..i - 1] == acts[..i][1..];
      PerformedOn(Next(s, ops[0]), acts[1..], i - 1, ops[1..], t, op);
      assert acts[1..][..i] == acts[..i + 1][1..];
      assert (ops + [op])[1..] == ops[1..] + [op];
    }
  }

  lemma TakesLegal(s: State, a: Action, op: Op)
    requires Takes(s, a, op)
    ensures Legal(s, op) && !op.OpFlush?
  {
  }

  /** What callbacks do are operations within the rules. */
  lemma {:induction false} PerformedDid(s: State, acts: seq<Action>, ops: seq<Op>, t: State)
    requires Inv(s) && Performed(s, acts, ops, t)
    ensures Did(s, ops, t) && |ops| == |acts|
    decreases |acts|
  {
    hide Inv, Takes, Next, Legal;
    if acts != [] {
      TakesLegal(s, acts[0], ops[0]);
      NextKeeps(s, ops[0]);
      PerformedDid(Next(s, ops[0]), acts[1..], ops[1..], t);
      assert forall i | 1 <= i < |ops| :: ops[i] == ops[1..][i - 1];
    }
  }

  /**
  The actions of a callback one by one: each is the call it asks for where the rules allow it, in the
  state its predecessors led to, and nothing elsewhere.
  */
  lemma {:induction false} PerformedIs(s: State, acts: seq<Action>, ops: seq<Op>, t: State, i: nat)
    requires Inv(s) && Performed(s, acts, ops, t) && i < |acts|
    ensures |ops| == |acts| && Runs(s, ops) && t == After(s, ops) && Runs(s, ops[..i])
    ensures var m := After(s, ops[..i]);
            match acts[i]
            case DoSet(w) => ops[i] == if w in m.watches then OpSet(w) else OpNone
            case DoWatch(w, fd, dir) =>
              if fd >= 0 && w in m.watches && m.watches[w].fn && SlotFree(m, fd, dir)
                 && |m.pollers| < KHash.MAX_KEYS then
                ops[i].OpWatch? && ops[i] == OpWatch(w, fd, dir, ops[i].p) && Serves(m, fd, ops[i].p)
              else
                ops[i] == OpNone
            case DoUnwatch(w) =>
              ops[i] == if w in m.watches && Watching(m, w, m.watches[w].poll) then OpUnwatch(w) else OpNone
            case DoClose(fd) => ops[i] == OpClose(fd)
    decreases |acts|
  {
    hide Inv, Next, Legal, Takes;
    PerformedDid(s, acts, ops, t);
    if i == 0 {
      assert ops[..0] == [];
      TakesIs(s, acts[0], ops[0]);
    } else {
      TakesLegal(s, acts[0], ops[0]);
      NextKeeps(s, ops[0]);
      PerformedIs(Next(s, ops[0]), acts[1..], ops[1..], t, i - 1);
      assert ops[..i][1..] == ops[1..][..i - 1];
    }
  }

  lemma TakesIs(m: State, a: Action, op: Op)
    requires Takes(m, a, op)
    ensures match a
            case DoSet(w) => op == if w in m.watches then OpSet(w) else OpNone
            case DoWatch(w, fd, dir) =>
              if fd >= 0 && w in m.watches && m.watches[w].fn && SlotFree(m, fd, dir)
                 && |m.pollers| < KHash.MAX_KEYS then
                op.OpWatch? && op == OpWatch(w, fd, dir, op.p) && Serves(m, fd, op.p)
              else
                op == OpNone
            case DoUnwatch(w) =>
              op == if w in m.watches && Watching(m, w, m.watches[w].poll) then OpUnwatch(w) else OpNone
            case DoClose(fd) => op == OpClose(fd)
  {
    hide Watching, SlotFree, Serves;
  }

  /** A descriptor closed by a callback that does not watch it again has no poller in the end. */
  lemma {:induction false} CloseDecides(s: State, acts: seq<Action>, ops: seq<Op>, t: State, i: nat, fd: int)
    requires Inv(s) && Performed(s, acts, ops, t) && i < |acts| && acts[i] == DoClose(fd)
    requires forall a | a in acts[i + 1..] && a.DoWatch? :: a.fd != fd
    ensures fd !in t.pollers && fd !in t.kernel
    decreases |acts|
  {
    hide Inv, Next;
    TakesLegal(s, acts[0], ops[0]);
    NextKeeps(s, ops[0]);
    if i == 0 {
      CloseIsExact(s, fd);
      StaysClosed(Next(s, ops[0]), acts[1..], ops[1..], t, fd);
    } else {
      assert acts[1..][i..] == acts[i + 1..];
      CloseDecides(Next(s, ops[0]), acts[1..], ops[1..], t, i - 1, fd);
    }
  }

  lemma {:induction false} StaysClosed(s: State, acts: seq<Action>, ops: seq<Op>, t: State, fd: int)
    requires Inv(s) && Performed(s, acts, ops, t) && fd !in s.pollers && fd !in s.kernel
    requires forall a | a in acts && a.DoWatch? :: a.fd != fd
    ensures Inv(t) && fd !in t.pollers && fd !in t.kernel
    decreases |acts|
  {
    hide Inv, Next, Takes;
    if acts != [] {
      TakesLegal(s, acts[0], ops[0]);
      NextKeeps(s, ops[0]);
      StaysClosedOnce(s, acts[0], ops[0], fd);
      StaysClosed(Next(s, ops[0]), acts[1..], ops[1..], t, fd);
    }
  }

  lemma StaysClosedOnce(s: State, a: Action, op: Op, fd: int)
    requires Inv(s) && Takes(s, a, op) && Legal(s, op) && fd !in s.pollers && fd !in s.kernel
    requires a.DoWatch? ==> a.fd != fd
    ensures fd !in Next(s, op).pollers && fd !in Next(s, op).kernel
  {
    hide Inv, WatchFd, Unwatched, CloseFd, FlushAll;
    match op {
      case OpWatch(w, f, dir, p) => WatchIsExact(s, w, f, dir, p);
      case OpUnwatch(w) =>
        if s.watches[w].poll != null {
          UnwatchIsExact(s, w);
        } else {
          UnwatchedNot(s, w);
        }
      case OpClose(f) => CloseIsExact(s, f);
      case _ =>
    }
  }

  lemma UnwatchedNot(s: State, w: Watch)
    requires w in s.watches && s.watches[w].poll == null
    ensures Unwatched(s, w) == s
  {
  }

  /** How one event was handled: the states its two tests were made in, and what the callbacks did. */
  datatype Look = Look(before: State, read: seq<Op>, mid: State, written: seq<Op>)

  /** One event: the callbacks it reaches run, each to its end, and nothing else happens. */
  ghost predicate Turn(l: Look, t: State, e: Event, h: Handlers) {
    && Inv(l.before) && Performed(l.before, if ReadCall(l.before, e) != [] then h.reading else [], l.read, l.mid)
    && Inv(l.mid) && Performed(l.mid, if WriteCall(l.mid, e) != [] then h.writing else [], l.written, t)
  }

  lemma IsTurn(l: Look, t: State, e: Event, h: Handlers, readCalls: seq<Call>, writeCalls: seq<Call>)
    requires Inv(l.before) && Inv(l.mid)
    requires readCalls == SlotCall(l.before, e, Read) && writeCalls == SlotCall(l.mid, e, Write)
    requires Performed(l.before, if readCalls != [] then h.reading else [], l.read, l.mid)
    requires Performed(l.mid, if writeCalls != [] then h.writing else [], l.written, t)
    ensures Turn(l, t, e, h) && ReadCall(l.before, e) == readCalls && WriteCall(l.mid, e) == writeCalls
    ensures Calls(l, e) == readCalls + writeCalls
  {
    hide Inv, Performed, SlotCall;
  }

  /** The callbacks that ran for an event. */
  function Calls(l: Look, e: Event): seq<Call> {
    ReadCall(l.before, e) + WriteCall(l.mid, e)
  }

  /** The callbacks that ran, in order. */
  function AllCalls(batch: seq<Event>, trace: seq<Look>): seq<Call>
    requires |trace| == |batch|
  {
    if batch == [] then []
    else
      var k := |batch| - 1;
      AllCalls(batch[..k], trace[..k]) + Calls(trace[k], batch[k])
  }

  lemma AllCallsNext(batch: seq<Event>, n: nat, trace: seq<Look>, look: Look)
    requires n < |batch| && |trace| == n
    ensures AllCalls(batch[..n + 1], trace + [look]) == AllCalls(batch[..n], trace) + Calls(look, batch[n])
  {
    assert batch[..n + 1][..n] == batch[..n] && (trace + [look])[..n] == trace;
  }

  /** Whether the reader and the writer of an event were called. */
  datatype Ran = Ran(read: bool, written: bool)

  /** The state in which the event after the `i`-th is looked at. */
  function AfterTurn(trace: seq<Look>, i: nat, t: State): State {
    if i + 1 < |trace| then trace[i + 1].before else t
  }

  /** `trace` leads from `s` to `t`, one turn per event. */
  ghost predicate Traced(s: State, batch: seq<Event>, script: seq<Handlers>, trace: seq<Look>, t: State) {
    && |trace| == |batch| <= |script|
    && s == (if trace == [] then t else trace[0].before)
    && forall i | 0 <= i < |trace| :: Turn(trace[i], AfterTurn(trace, i, t), batch[i], script[i])
  }

  lemma TracedNone(s: State, script: seq<Handlers>)
    ensures Traced(s, [], script, [], s)
  {
  }

  lemma TracedOn(s: State, batch: seq<Event>, script: seq<Handlers>, n: nat, trace: seq<Look>, before: State,
                 look: Look, t: State)
    requires n < |batch| <= |script| && Traced(s, batch[..n], script, trace, before)
    requires look.before == before && Turn(look, t, batch[n], script[n])
    ensures Traced(s, batch[..n + 1], script, trace + [look], t)
  {
    hide Turn;
    var trace' := trace + [look];
    forall i | 0 <= i < |trace'| ensures Turn(trace'[i], AfterTurn(trace', i, t), batch[..n + 1][i], script[i]) {
      if i < n {
        assert Turn(trace[i], AfterTurn(trace, i, before), batch[..n][i], script[i]);
        assert batch[..n + 1][i] == batch[..n][i] && trace'[i] == trace[i];
        assert trace'[i + 1] == if i + 1 < n then trace[i + 1] else look;
      }
    }
  }

  /**
  Event `i` of a dispatch: its reader is looked for in the state that the event before left, its
  writer in the one that the reader's callback left, and each that is found acts.
  */
  lemma EventActs(s: State, batch: seq<Event>, script: seq<Handlers>, trace: seq<Look>, t: State, i: nat)
    requires Traced(s, batch, script, trace, t) && i < |batch|
    ensures |trace| == |batch| <= |script|
    ensures var l, e, h := trace[i], batch[i], script[i];
            && l.before == (if i == 0 then s else AfterTurn(trace, i - 1, t))
            && Performed(l.before, if e.poller in l.before.polls && l.before.polls[e.poller].rd != null
                                      && (In in e.events || Hup in e.events) then h.reading else [], l.read, l.mid)
            && Performed(l.mid, if e.poller in l.mid.polls && l.mid.polls[e.poller].wr != null && Out in e.events
                                then h.writing else [], l.written, if i + 1 < |trace| then trace[i + 1].before else t)
  {
    hide Performed, Inv, ReadCall, WriteCall;
    assert Turn(trace[i], AfterTurn(trace, i, t), batch[i], script[i]);
    CallsExactly(trace[i].before, batch[i]);
    CallsExactly(trace[i].mid, batch[i]);
  }

  /** A turn's two callbacks are runs of operations within the rules. */
  lemma TurnDid(l: Look, t: State, e: Event, h: Handlers)
    requires Turn(l, t, e, h)
    ensures Did(l.before, l.read, l.mid) && Did(l.mid, l.written, t)
  {
    hide Inv, Performed, Did, ReadCall, WriteCall;
    PerformedDid(l.before, if ReadCall(l.before, e) != [] then h.reading else [], l.read, l.mid);
    PerformedDid(l.mid, if WriteCall(l.mid, e) != [] then h.writing else [], l.written, t);
  }

  /**
  Deferred freeing through a batch: in every state in which an event is looked at, each poller
  that was allocated when the batch began is still allocated, and one that was closed by then,
  or by an earlier callback, has no watcher left to call.
  */
  lemma {:induction false} BatchIsSafe(s: State, batch: seq<Event>, script: seq<Handlers>, trace: seq<Look>, t: State,
                                       i: nat)
    requires Inv(s) && Traced(s, batch, script, trace, t) && i < |trace|
    ensures Inv(trace[i].before) && Retained(s, trace[i].before)
    ensures Inv(trace[i].mid) && Retained(s, trace[i].mid)
  {
    hide Inv, Retained, Turn, Did;
    var l := trace[i];
    if i == 0 {
      RetainedNot(s);
    } else {
      BatchIsSafe(s, batch, script, trace, t, i - 1);
      assert Turn(trace[i - 1], AfterTurn(trace, i - 1, t), batch[i - 1], script[i - 1]);
      TurnDid(trace[i - 1], l.before, batch[i - 1], script[i - 1]);
      DidRetains(trace[i - 1].mid, trace[i - 1].written, l.before);
      RetainedOn(s, trace[i - 1].mid, l.before);
    }
    assert Turn(l, AfterTurn(trace, i, t), batch[i], script[i]);
    TurnDid(l, AfterTurn(trace, i, t), batch[i], script[i]);
    DidRetains(l.before, l.read, l.mid);
    RetainedOn(s, l.before, l.mid);
  }

  /** The dispatch of a batch keeps the invariant, and frees nothing. */
  lemma TracedKeeps(s: State, batch: seq<Event>, script: seq<Handlers>, trace: seq<Look>, t: State)
    requires Inv(s) && Traced(s, batch, script, trace, t)
    ensures Inv(t) && Retained(s, t) && (batch == [] ==> t == s)
  {
    hide Inv, Retained, Turn, Did;
    if trace == [] {
      RetainedNot(s);
    } else {
      var i := |trace| - 1;
      BatchIsSafe(s, batch, script, trace, t, i);
      assert Turn(trace[i], AfterTurn(trace, i, t), batch[i], script[i]);
      TurnDid(trace[i], t, batch[i], script[i]);
      DidRetains(trace[i].mid, trace[i].written, t);
      RetainedOn(s, trace[i].mid, t);
    }
  }

  /** The callbacks of a batch begin to wait with idle watches only. */
  ghost predicate SinglyTraced(trace: seq<Look>) {
    forall i | 0 <= i < |trace| ::
      && (Inv(trace[i].before) && Runs(trace[i].before, trace[i].read) ==> Singly(trace[i].before, trace[i].read))
      && (Inv(trace[i].mid) && Runs(trace[i].mid, trace[i].written) ==> Singly(trace[i].mid, trace[i].written))
  }

  /** Then every watch the dispatch loop calls has a callback, whatever was unwatched in between. */
  lemma {:induction false} CallsHaveFn(s: State, batch: seq<Event>, script: seq<Handlers>, trace: seq<Look>, t: State,
                                       i: nat)
    requires Inv(s) && Armed(s) && Alone(s) && Traced(s, batch, script, trace, t) && SinglyTraced(trace) && i < |trace|
    ensures Armed(AfterTurn(trace, i, t)) && Alone(AfterTurn(trace, i, t))
    ensures forall c | c in ReadCall(trace[i].before, batch[i]) ::
              c.watch in trace[i].before.watches && trace[i].before.watches[c.watch].fn
    ensures forall c | c in WriteCall(trace[i].mid, batch[i]) ::
              c.watch in trace[i].mid.watches && trace[i].mid.watches[c.watch].fn
  {
    hide Inv, Armed, Alone, Turn, ReadCall, WriteCall, Singly, Runs;
    var l, u := trace[i], AfterTurn(trace, i, t);
    if i > 0 {
      CallsHaveFn(s, batch, script, trace, t, i - 1);
    }
    assert Turn(l, u, batch[i], script[i]);
    TurnDid(l, u, batch[i], script[i]);
    CallHasFn(l.before, batch[i]);
    DidArmed(l.before, l.read, l.mid);
    CallHasFn(l.mid, batch[i]);
    DidArmed(l.mid, l.written, u);
  }

  lemma {:induction false} BatchArmed(s: State, batch: seq<Event>, script: seq<Handlers>, trace: seq<Look>, t: State)
    requires Inv(s) && Armed(s) && Alone(s) && Traced(s, batch, script, trace, t) && SinglyTraced(trace)
    ensures Armed(t) && Alone(t)
  {
    hide Inv, Armed, Alone, Turn, SinglyTraced, ReadCall, WriteCall;
    if trace != [] {
      CallsHaveFn(s, batch, script, trace, t, |trace| - 1);
    }
  }

  lemma DidArmed(s: State, ops: seq<Op>, t: State)
    requires Did(s, ops, t) && Singly(s, ops) && Armed(s) && Alone(s)
    ensures Armed(t) && Alone(t)
  {
    hide Inv, Armed, Alone;
    RunArmed(s, ops);
  }

  lemma CallHasFn(s: State, e: Event)
    requires Armed(s)
    ensures forall c | c in ReadCall(s, e) + WriteCall(s, e) :: c.watch in s.watches && s.watches[c.watch].fn
  {
    if e.poller in s.polls {
      assert s.polls[e.poller].rd == Slot(s.polls[e.poller], Read);
      assert s.polls[e.poller].wr == Slot(s.polls[e.poller], Write);
    }
  }

  lemma DidRetains(s: State, ops: seq<Op>, t: State)
    requires Did(s, ops, t)
    ensures Inv(t) && Retained(s, t)
  {
    hide Inv, Retained;
    RunKeeps(s, ops);
    RunRetains(s, ops);
  }

  /** `epoll_wait`: the ready descriptors the kernel knows, with the pollers they were registered for. */
  function Reported(kernel: map<int, Registration>, ready: seq<Ready>): (batch: seq<Event>)
    ensures |batch| <= |ready|
  {
    if ready == [] then []
    else if ready[0].fd in kernel then
      [Event(kernel[ready[0].fd].poller, ready[0].events)] + Reported(kernel, ready[1..])
    else Reported(kernel, ready[1..])
  }

  /** A ready descriptor is reported, with its poller and its events, if the kernel knows it; several are in order. */
  lemma {:induction false} ReportedInOrder(kernel: map<int, Registration>, a: seq<Ready>, b: seq<Ready>)
    ensures Reported(kernel, a + b) == Reported(kernel, a) + Reported(kernel, b)
    ensures |a| == 1 ==>
              Reported(kernel, a) == if a[0].fd in kernel then [Event(kernel[a[0].fd].poller, a[0].events)] else []
  {
    if a == [] {
      assert a + b == b;
    } else {
      assert (a + b)[1..] == a[1..] + b;
      ReportedInOrder(kernel, a[1..], b);
    }
  }

  lemma {:induction false} ReportedAreKnown(kernel: map<int, Registration>, ready: seq<Ready>)
    ensures forall e | e in Reported(kernel, ready) :: exists fd :: fd in kernel && kernel[fd].poller == e.poller
  {
    if ready != [] {
      ReportedAreKnown(kernel, ready[1..]);
    }
  }

  lemma ReportedAllocated(s: State, ready: seq<Ready>)
    requires Inv(s)
    ensures forall e | e in Reported(s.kernel, ready) :: e.poller in s.polls
  {
    hide Listed, Synced, Attached;
    ReportedAreKnown(s.kernel, ready);
  }

  class EventLoop {
    const table: KHash.HashTable<int, Poller?>   // the poller of each descriptor
    ghost var pollers: map<int, Poller>          // what the table says
    var dirtyList: Poller?
    var kernel: map<int, Registration>   // the kernel's interest table
    ghost var s: State

    /** The objects hold what `s` says. */
    ghost predicate Mirrors()
      reads this`pollers, this`kernel, this`s, s.polls.Keys, s.watches.Keys
    {
      && pollers == s.pollers && kernel == s.kernel
      && (forall p | p in s.polls :: PollState(p.fd, p.rd, p.wr, p.flags) == s.polls[p])
      && (forall w | w in s.watches :: WatchState(w.fn, w.poll) == s.watches[w])
    }

    /** The hash table finds exactly the pollers of `pollers`. */
    ghost predicate Tabled()
      reads this`pollers, table, table.flags, table.keys, table.vals
    {
      table.Valid() && Finds(table.m, pollers)
    }

    ghost predicate Valid()
      reads this, s.polls.Keys, s.dirty, s.watches.Keys, table, table.flags, table.keys, table.vals
    {
      Mirrors() && Tabled() && Inv(s) && Linked(dirtyList, s.dirty)
    }

    lemma Opened()
      ensures Valid() <==> Mirrors() && Tabled() && Inv(s) && Linked(dirtyList, s.dirty)
      ensures Tabled() <==> table.Valid() && Finds(table.m, pollers)
      ensures Mirrors() ==> pollers == s.pollers && kernel == s.kernel
      ensures Inv(s) ==> Listed(s) && forall fd | fd in s.pollers :: fd >= 0 && s.pollers[fd] in s.polls
    {
    }

    constructor ()
      ensures Valid() && s == START && fresh(table) && fresh(table.flags) && fresh(table.keys) && fresh(table.vals)
    {
      table := new KHash.HashTable<int, Poller?>(fd => U32(fd));
      pollers, dirtyList, kernel, s := map[], null, map[], START;
      new;
      hide *;
      Opened();
      StartIs();
      assert Mirrors() by { StartMirrors(); }
    }

    lemma StartIs()
      ensures Inv(START) && Linked(null, START.dirty) && START.pollers == map[] && START.kernel == map[]
      ensures Finds(map[], map[])
    {
    }

    lemma StartMirrors()
      requires s == START && pollers == map[] && kernel == map[]
      ensures Mirrors()
    {
    }

    /** `mark_dirty` */
    method MarkDirty(p: Poller)
      requires Mirrors() && p in s.polls && Listed(s) && Linked(dirtyList, s.dirty)
      modifies this`dirtyList, this`s, p`flags, p`next
      ensures Mirrors() && Linked(dirtyList, s.dirty) && s == Registry.MarkDirty(old(s), p)
    {
      if Err !in p.flags {
        ghost var ds := s.dirty;
        p.flags := p.flags + {Err};
        p.next := dirtyList;
        dirtyList := p;
        s := Registry.MarkDirty(s, p);
        assert s.dirty[1..] == ds;
      }
    }

    /** `kh_put` on the pollers in `ev_watch`, and the new poller of a descriptor that had none. */
    method Enter(fd: int) returns (p: Poller, made: bool)
      requires Tabled() && |pollers| < KHash.MAX_KEYS
      modifies table, table.flags, table.keys, table.vals
      ensures table.flags == old(table.flags) || fresh(table.flags)
      ensures table.keys == old(table.keys) || fresh(table.keys)
      ensures table.vals == old(table.vals) || fresh(table.vals)
      ensures made <==> fd !in pollers
      ensures table.Valid() && Finds(table.m, if made then pollers[fd := p] else pollers)
      ensures if made then fresh(p) && PollState(p.fd, p.rd, p.wr, p.flags) == PollState(fd, null, null, {})
              else p == pollers[fd]
    {
      hide *;
      Opened();
      FindsAt(table.m, pollers);
      table.FewCanGrow();
      ghost var m := table.m;
      var x, ret := table.Put(fd);
      made := ret != 0;
      if made {
        p := new Poller(fd);
        table.SetVal(x, p);
        FindsAdd(m, pollers, fd, p);
        assert table.m == m[fd := p];
      } else {
        table.BucketHolds(x);
        p := table.vals[x];
      }
    }

    /** `Enter`, which leaves the pollers and watches alone. */
    method EnterNext(fd: int) returns (p: Poller, made: bool)
      requires Valid() && |s.pollers| < KHash.MAX_KEYS
      modifies table, table.flags, table.keys, table.vals
      ensures table.flags == old(table.flags) || fresh(table.flags)
      ensures table.keys == old(table.keys) || fresh(table.keys)
      ensures table.vals == old(table.vals) || fresh(table.vals)
      ensures Mirrors() && Inv(s) && Linked(dirtyList, s.dirty)
      ensures table.Valid() && Finds(table.m, if made then pollers[fd := p] else pollers)
      ensures made <==> fd !in s.pollers
      ensures if made then fresh(p) && PollState(p.fd, p.rd, p.wr, p.flags) == PollState(fd, null, null, {})
              else p == s.pollers[fd]
    {
      hide *;
      Opened();
      assert forall o: object | o in s.polls.Keys || o in s.dirty :: o is Poller;
      assert forall o: object | o in s.watches.Keys :: o is Watch;
      p, made := Enter(fd);
    }

    /** The poller of `fd` in `ev_watch`, a new one if there is none. */
    method Lookup(fd: int) returns (p: Poller)
      requires Valid() && fd >= 0 && |s.pollers| < KHash.MAX_KEYS
      modifies this`pollers, this`s, table, table.flags, table.keys, table.vals
      ensures table.flags == old(table.flags) || fresh(table.flags)
      ensures table.keys == old(table.keys) || fresh(table.keys)
      ensures table.vals == old(table.vals) || fresh(table.vals)
      ensures Valid() && fd in s.pollers && s.pollers[fd] == p && p in s.polls
      ensures if fd in old(s.pollers) then s == old(s) else fresh(p) && s == AddPoller(old(s), fd, p)
      ensures s.polls.Keys == old(s.polls.Keys) + {p} && s.watches == old(s.watches)
    {
      hide *;
      Opened();
      var made;
      p, made := EnterNext(fd);
      if made {
        Adopt(fd, p);
      }
      Opened();
    }

    /** A new poller counts among the allocated ones. */
    ghost method Adopt(fd: int, p: Poller)
      requires Mirrors() && Inv(s) && Linked(dirtyList, s.dirty) && fd >= 0 && fd !in s.pollers && p !in s.polls
      requires PollState(p.fd, p.rd, p.wr, p.flags) == PollState(fd, null, null, {})
      modifies this`pollers, this`s
      ensures Mirrors() && Inv(s) && Linked(dirtyList, s.dirty) && s == AddPoller(old(s), fd, p)
      ensures fd in s.pollers && s.pollers[fd] == p && p in s.polls && pollers == old(pollers)[fd := p]
      ensures s.polls.Keys == old(s.polls.Keys) + {p} && s.watches == old(s.watches)
    {
      hide Inv, Linked;
      AddPollerKeeps(s, fd, p);
      pollers := pollers[fd := p];
      s := AddPoller(s, fd, p);
    }

    /** The assignment of a poller's watchers. */
    method Assign(p: Poller, rd: Watch?, wr: Watch?)
      requires Mirrors() && p in s.polls && Listed(s) && Linked(dirtyList, s.dirty)
      modifies this`s, p`rd, p`wr
      ensures Mirrors() && s == old(s).(polls := old(s).polls[p := old(s).polls[p].(rd := rd, wr := wr)])
      ensures Listed(s) && Linked(dirtyList, s.dirty)
    {
      hide Linked, Listed;
      AssignLists(p, rd, wr);
      p.rd := rd;
      p.wr := wr;
      s := s.(polls := s.polls[p := s.polls[p].(rd := rd, wr := wr)]);
    }

    lemma AssignLists(p: Poller, rd: Watch?, wr: Watch?)
      requires p in s.polls && Listed(s)
      ensures Listed(s.(polls := s.polls[p := s.polls[p].(rd := rd, wr := wr)]))
    {
    }

    /** New watchers for an open poller, and `mark_dirty`. */
    method Rewatch(p: Poller, rd: Watch?, wr: Watch?)
      requires Valid() && p in s.polls && Open(s.polls[p])
      requires (rd != null ==> rd in s.watches) && (wr != null ==> wr in s.watches)
      modifies this`dirtyList, this`s, p
      ensures Valid() && s == SetWatchers(old(s), p, rd, wr)
      ensures s.polls.Keys == old(s.polls.Keys) && s.watches == old(s.watches)
    {
      hide *;
      Opened();
      SetWatchersKeeps(s, p, rd, wr);
      SetWatchersIs(s, p, rd, wr);
      Assign(p, rd, wr);
      MarkDirty(p);
      Opened();
    }

    lemma SetWatchersIs(s: State, p: Poller, rd: Watch?, wr: Watch?)
      requires p in s.polls
      ensures var t := s.(polls := s.polls[p := s.polls[p].(rd := rd, wr := wr)]);
              SetWatchers(s, p, rd, wr) == Registry.MarkDirty(t, p)
      ensures SetWatchers(s, p, rd, wr).polls.Keys == s.polls.Keys && SetWatchers(s, p, rd, wr).watches == s.watches
    {
    }

    lemma Looks(p: Poller)
      requires Valid() && p in s.polls
      ensures PollState(p.fd, p.rd, p.wr, p.flags) == s.polls[p]
    {
    }

    /** What a watch's own fields are to say. */
    method SetFields(w: Watch, fn: bool, p: Poller?)
      requires Valid() && w in s.watches
      modifies this`s, w
      ensures Valid() && s == old(s).(watches := old(s).watches[w := WatchState(fn, p)])
    {
      hide *;
      Opened();
      WatchesKeep(s, s.watches[w := WatchState(fn, p)]);
      Store(w, fn, p);
      Opened();
    }

    method Store(w: Watch, fn: bool, p: Poller?)
      requires Mirrors() && w in s.watches
      modifies this`s, w
      ensures Mirrors() && s == old(s).(watches := old(s).watches[w := WatchState(fn, p)])
    {
      w.fn, w.poll := fn, p;
      s := s.(watches := s.watches[w := WatchState(fn, p)]);
    }

    lemma WatchLooks(w: Watch)
      requires Valid() && w in s.watches
      ensures WatchState(w.fn, w.poll) == s.watches[w]
    {
    }

    /** The caller sets a watch's callback. */
    method SetFn(w: Watch)
      requires Valid() && w in s.watches
      modifies this`s, w
      ensures Valid() && s == FnSet(old(s), w)
      ensures s.polls == old(s.polls) && s.watches.Keys == old(s.watches.Keys)
    {
      hide *;
      WatchLooks(w);
      FnSetIs(s, w);
      SetFields(w, true, w.poll);
    }

    lemma FnSetIs(s: State, w: Watch)
      requires w in s.watches
      ensures FnSet(s, w) == s.(watches := s.watches[w := WatchState(true, s.watches[w].poll)])
    {
    }

    /** The loop learns of a new watch, whose fields are zero. */
    method NewWatch() returns (w: Watch)
      requires Valid()
      modifies this`s
      ensures Valid() && fresh(w) && s == old(s).(watches := old(s).watches[w := WatchState(false, null)])
    {
      hide *;
      Opened();
      w := new Watch();
      WatchesKeep(s, s.watches[w := WatchState(false, null)]);
      Learn(w);
      Opened();
    }

    ghost method Learn(w: Watch)
      requires Mirrors() && !w.fn && w.poll == null
      modifies this`s
      ensures Mirrors() && s == old(s).(watches := old(s).watches[w := WatchState(false, null)])
    {
      s := s.(watches := s.watches[w := WatchState(false, null)]);
    }

    /** `ev_watch`, whose assertions demand a callback and a free slot. */
    method Watch(w: Watch, fd: int, dir: Direction) returns (p: Poller)
      requires Valid() && fd >= 0 && w in s.watches && s.watches[w].fn
      requires SlotFree(s, fd, dir) && |s.pollers| < KHash.MAX_KEYS
      modifies this`pollers, this`dirtyList, this`s, s.polls.Keys, w
      modifies table, table.flags, table.keys, table.vals
      ensures table.flags == old(table.flags) || fresh(table.flags)
      ensures table.keys == old(table.keys) || fresh(table.keys)
      ensures table.vals == old(table.vals) || fresh(table.vals)
      ensures Valid() && s.watches.Keys == old(s.watches.Keys)
      ensures (p in old(s.polls) || fresh(p)) && s.polls.Keys == old(s.polls.Keys) + {p}
      ensures Serves(old(s), fd, p) && s == WatchFd(old(s), w, fd, dir, p)
    {
      hide *;
      p := Lookup(fd);
      OpenAt(fd);
      WatchIs(old(s), w, fd, dir, p);
      Place(w, dir, p);
    }

    /** The watch and the poller get to know each other. */
    method Place(w: Watch, dir: Direction, p: Poller)
      requires Valid() && w in s.watches && p in s.polls && Open(s.polls[p])
      modifies this`dirtyList, this`s, p, w
      ensures Valid() && s.polls.Keys == old(s.polls.Keys) && s.watches.Keys == old(s.watches.Keys)
      ensures var v := old(s).(watches := old(s).watches[w := WatchState(old(s).watches[w].fn, p)]);
              s == if dir == Read then SetWatchers(v, p, w, v.polls[p].wr) else SetWatchers(v, p, v.polls[p].rd, w)
    {
      hide *;
      WatchLooks(w);
      SetFields(w, w.fn, p);
      Looks(p);
      Opened();
      AttachedAt(s, p);
      if dir == Read {
        Rewatch(p, w, p.wr);
      } else {
        Rewatch(p, p.rd, w);
      }
    }

    lemma WatchIs(s: State, w: Watch, fd: int, dir: Direction, p: Poller)
      requires w in s.watches
      ensures (if fd in s.pollers then p == s.pollers[fd] && p in s.polls else p !in s.polls) ==>
                var u := if fd in s.pollers then s else AddPoller(s, fd, p);
                var v := u.(watches := u.watches[w := WatchState(u.watches[w].fn, p)]);
                && p in u.polls && Serves(s, fd, p) && u.watches == s.watches
                && WatchFd(s, w, fd, dir, p) == if dir == Read then SetWatchers(v, p, w, u.polls[p].wr)
                                                else SetWatchers(v, p, u.polls[p].rd, w)
    {
    }

    lemma OpenAt(fd: int)
      requires Valid() && fd in s.pollers && s.pollers[fd] in s.polls
      ensures Open(s.polls[s.pollers[fd]])
    {
    }

    /**
    `ev_unwatch`.  It must not be called for a watch whose descriptor was closed: `ev_close`
    leaves the watch pointing to the closed poller.
    */
    method Unwatch(w: Watch)
      requires Valid() && w in s.watches && Watching(s, w, s.watches[w].poll)
      modifies this`dirtyList, this`s, s.polls.Keys, w
      ensures Valid() && s == Unwatched(old(s), w)
      ensures s.polls.Keys == old(s.polls.Keys) && s.watches.Keys == old(s.watches.Keys)
    {
      hide *;
      WatchLooks(w);
      UnwatchIs(s, w);
      var p := w.poll;
      if p == null {
        return;
      }
      SetFields(w, false, null);
      Looks(p);
      Opened();
      AttachedAt(s, p);
      if p.rd == w {
        Rewatch(p, null, p.wr);
      } else {
        assert w == p.wr;
        Rewatch(p, p.rd, null);
      }
    }

    lemma UnwatchIs(s: State, w: Watch)
      requires w in s.watches && Watching(s, w, s.watches[w].poll)
      ensures var p := s.watches[w].poll;
              var u := s.(watches := s.watches[w := WatchState(false, null)]);
              && (p != null ==> p in s.polls && Open(s.polls[p]) && (s.polls[p].rd == w || s.polls[p].wr == w))
              && Unwatched(s, w) == if p == null then s
                                    else if s.polls[p].rd == w then SetWatchers(u, p, null, s.polls[p].wr)
                                    else SetWatchers(u, p, s.polls[p].rd, null)
    {
    }

    /** The poller part of `ev_close`. */
    method Detach(fd: int, p: Poller)
      requires Mirrors() && Inv(s) && Linked(dirtyList, s.dirty)
      requires table.Valid() && Finds(table.m, pollers - {fd})
      requires fd in s.pollers && s.pollers[fd] == p && p in s.polls
      modifies this, p
      ensures Valid() && s == CloseFd(old(s), fd)
      ensures s.polls.Keys == old(s.polls.Keys) && s.watches == old(s.watches)
    {
      hide *;
      Opened();
      CloseKeeps(s, fd);
      CloseIs(s, fd);
      Blank(fd, p);
      MarkDirty(p);
      Opened();
    }

    lemma CloseIs(s: State, fd: int)
      requires fd in s.pollers && s.pollers[fd] in s.polls
      ensures CloseFd(s, fd) == Registry.MarkDirty(Blanked(s, fd), s.pollers[fd])
      ensures CloseFd(s, fd).polls.Keys == s.polls.Keys && CloseFd(s, fd).watches == s.watches
    {
    }

    /** The assignments of `ev_close` before `mark_dirty`, and what closing means to the kernel. */
    method Blank(fd: int, p: Poller)
      requires Mirrors() && fd in s.pollers && s.pollers[fd] == p && p in s.polls
      requires Listed(s) && Linked(dirtyList, s.dirty)
      modifies this`pollers, this`kernel, this`s, p`fd, p`rd, p`wr
      ensures Mirrors() && s == Blanked(old(s), fd) && p in s.polls && pollers == old(pollers) - {fd}
      ensures Listed(s) && Linked(dirtyList, s.dirty)
    {
      hide Linked, Listed, Blanked;
      BlankedLists(s, fd);
      BlankedIs(s, fd);
      pollers := pollers - {fd};
      p.fd, p.rd, p.wr := -1, null, null;
      kernel := kernel - {fd};
      s := Blanked(s, fd);
    }

    lemma BlankedIs(s: State, fd: int)
      requires fd in s.pollers && s.pollers[fd] in s.polls
      ensures var p, t := s.pollers[fd], Blanked(s, fd);
              && t.pollers == s.pollers - {fd} && t.kernel == s.kernel - {fd}
              && t.dirty == s.dirty && t.watches == s.watches
              && t.polls == s.polls[p := PollState(-1, null, null, s.polls[p].flags)]
    {
    }

    /** `kh_get` and `kh_del` in `ev_close`: null if the descriptor has no poller. */
    method Take(fd: int) returns (p: Poller?)
      requires Tabled()
      modifies table, table.flags
      ensures table.flags == old(table.flags) && table.keys == old(table.keys) && table.vals == old(table.vals)
      ensures p == if fd in pollers then pollers[fd] else null
      ensures table.Valid() && Finds(table.m, if fd in pollers then pollers - {fd} else pollers)
    {
      hide *;
      Opened();
      FindsAt(table.m, pollers);
      FindsLess(table.m, pollers, fd);
      var x := table.Get(fd);
      if x == table.nBuckets {
        return null;
      }
      p := table.vals[x];
      table.Del(x);
    }

    /** `ev_close` */
    method Close(fd: int)
      requires Valid()
      modifies this, s.polls.Keys, table, table.flags
      ensures table.flags == old(table.flags) && table.keys == old(table.keys) && table.vals == old(table.vals)
      ensures Valid() && s == CloseFd(old(s), fd)
      ensures s.polls.Keys == old(s.polls.Keys) && s.watches == old(s.watches)
    {
      hide *;
      Opened();
      var p := Take(fd);
      if p != null {
        Detach(fd, p);
      } else {
        Opened();
        CloseUnknown(fd);
        kernel := kernel - {fd};
      }
    }

    lemma CloseUnknown(fd: int)
      requires Valid() && fd !in s.pollers
      ensures CloseFd(s, fd) == s && kernel - {fd} == kernel
    {
      assert fd !in s.kernel;
      assert s.kernel - {fd} == s.kernel;
    }

    /** `epoll_ctl` with `EPOLL_CTL_ADD`, which the kernel accepts only for an unknown descriptor. */
    method CtlAdd(fd: int, r: Registration)
      requires fd !in kernel
      modifies this`kernel
      ensures kernel == old(kernel)[fd := r]
    {
      kernel := kernel[fd := r];
    }

    /** `epoll_ctl` with `EPOLL_CTL_MOD`, which the kernel accepts only for a known descriptor. */
    method CtlMod(fd: int, r: Registration)
      requires fd in kernel
      modifies this`kernel
      ensures kernel == old(kernel)[fd := r]
    {
      kernel := kernel[fd := r];
    }

    /** The start of a turn of the flush loop: the first dirty poller `p` leaves the list. */
    method Clean(p: Poller) returns (next: Poller?)
      requires Mirrors() && Listed(s) && s.dirty != [] && Linked(p, s.dirty) && s.dirty[0] in s.polls
      modifies this`s, p`flags, p`next
      ensures Mirrors() && Linked(next, s.dirty) && p == old(s).dirty[0] && s == Cleaned(old(s))
    {
      TailIsOthers(s);
      next := p.next;
      p.flags := p.flags - {Err};
      p.next := null;
      s := Cleaned(s);
    }

    /** The rest of the turn: free a closed poller, or tell the kernel what `p` wants now. */
    method Settle(p: Poller)
      requires Mirrors() && p in s.polls && s.polls[p].flags * {Hup, In, Out} == {}
      requires Open(s.polls[p]) ==> (Et in s.polls[p].flags <==> s.polls[p].fd in s.kernel)
      modifies this`kernel, this`s, p`flags
      ensures Mirrors() && s == Settled(old(s), p)
    {
      ghost var t := Settled(s, p);
      var known := p.flags * {Hup, In, Out};
      var events := (if p.rd != null then {In, Hup} else {}) + (if p.wr != null then {Out} else {});
      if p.fd < 0 {
        XFree(p);
      } else if events != {} && Et !in p.flags {
        CtlAdd(p.fd, Registration(p, events + {Et}));
        p.flags := p.flags + {Et};
      } else if events != known {
        CtlMod(p.fd, Registration(p, events + {Et}));
      }
      s := t;
    }

    /** `xfree`, of a poller that is still allocated. */
    method XFree(p: Poller)
      requires p in s.polls
      modifies this`s
      ensures s == old(s).(polls := old(s).polls - {p})
    {
      s := s.(polls := s.polls - {p});
    }

    /** One turn of the flush loop. */
    method FlushTurn(p: Poller) returns (next: Poller?)
      requires Mirrors() && Inv(s) && s.dirty != [] && Linked(p, s.dirty)
      modifies this`kernel, this`s, p`flags, p`next
      ensures Mirrors() && Inv(s) && Linked(next, s.dirty)
      ensures old(s).dirty[0] in old(s).polls && s == FlushFirst(old(s)) && p == old(s).dirty[0]
    {
      hide *;
      Opened();
      TailIsOthers(s);
      CtlIsAccepted(s);
      FlushFirstKeeps(s);
      FlushFirstIs(s);
      next := Clean(p);
      Settle(p);
    }

    lemma FlushFirstIs(s: State)
      requires s.dirty != [] && s.dirty[0] in s.polls
      ensures Cleaned(s).kernel == s.kernel && s.dirty[0] in Cleaned(s).polls && Cleaned(s).dirty == s.dirty[1..]
      ensures FlushFirst(s) == Settled(Cleaned(s), s.dirty[0]) && FlushFirst(s).dirty == s.dirty[1..]
      ensures FlushFirst(s).watches == s.watches
    {
    }

    /**
    The flush of `evloop_step`: frees the closed pollers and registers every watched one for
    exactly what its watchers want.
    */
    method Flush()
      requires Valid()
      modifies this, s.polls.Keys
      ensures Valid() && s == FlushAll(old(s)) && s.dirty == []
      ensures s.polls.Keys <= old(s.polls.Keys) && s.watches == old(s.watches)
      ensures forall p | p in old(s.polls) :: p in s.polls <==> Open(old(s.polls[p]))
      ensures forall fd | fd in s.pollers && Watched(s, fd) :: Exact(s, fd)
      ensures forall fd | fd in s.kernel && !Watched(s, fd) :: !Exact(s, fd)
    {
      hide *;
      Opened();
      ghost var s0 := s;
      var p := dirtyList;
      while p != null
        invariant Mirrors() && Tabled() && Inv(s) && Linked(p, s.dirty)
        invariant FlushAll(s) == FlushAll(s0) && s.polls.Keys <= s0.polls.Keys && s.watches == s0.watches
        decreases |s.dirty|
      {
        FirstDirty(p);
        FlushAllIs(s);
        FlushFirstIs(s);
        FlushFirstShrinks(s);
        p := FlushTurn(p);
      }
      NoneDirty();
      assert s.dirty == [];
      dirtyList := null;
      FlushAllIs(s);
      FlushAllFlushes(s0);
      Flushed(s0, s);
      Opened();
    }

    lemma FirstDirty(p: Poller)
      requires Inv(s) && Linked(p, s.dirty)
      ensures s.dirty != [] && p == s.dirty[0] && p in s.polls
    {
    }

    lemma NoneDirty()
      ensures Linked(null, s.dirty) ==> s.dirty == []
      ensures Linked(null, [])
    {
    }

    // ---------- dispatch ----------

    /** `kh_get` on the pollers: null if the descriptor has none. */
    method Find(fd: int) returns (p: Poller?)
      requires Valid()
      ensures p == if fd in s.pollers then s.pollers[fd] else null
    {
      hide *;
      Opened();
      FindsAt(table.m, pollers);
      var x := table.Get(fd);
      p := if x == table.nBuckets then null else table.vals[x];
    }

    method IsFree(fd: int, dir: Direction) returns (b: bool)
      requires Valid()
      ensures b <==> SlotFree(s, fd, dir)
    {
      hide Inv, Linked, Tabled;
      Opened();
      var p := Find(fd);
      b := p == null || if dir == Read then p.rd == null else p.wr == null;
    }

    method IsWatching(w: Watch) returns (b: bool)
      requires Valid() && w in s.watches
      ensures b <==> Watching(s, w, s.watches[w].poll)
    {
      hide Linked, Listed, Known, Synced, Indexed, Attached, Tabled;
      var p := w.poll;
      if p == null {
        return true;
      }
      OpenInTable(s, p, p.fd);
      var q := Find(p.fd);
      b := q == p && (p.rd == w || p.wr == w);
    }

    method CanWatch(w: Watch, fd: int, dir: Direction) returns (b: bool)
      requires Valid() && w in s.watches
      ensures b <==> Allowed(s, DoWatch(w, fd, dir))
    {
      hide Valid, SlotFree, Tabled, Finds;
      Opened();
      FindsAt(table.m, pollers);
      table.SizeIsCount();
      WatchLooks(w);
      var free := IsFree(fd, dir);
      b := fd >= 0 && w.fn && free && table.size < KHash.MAX_KEYS;
    }

    /** `ev_watch` where it is allowed. */
    method ActWatch(w: Watch, fd: int, dir: Direction) returns (ghost op: Op)
      requires Valid() && w in s.watches
      modifies this, s.polls.Keys, w
      modifies table, table.flags, table.keys, table.vals
      ensures table.flags == old(table.flags) || fresh(table.flags)
      ensures table.keys == old(table.keys) || fresh(table.keys)
      ensures table.vals == old(table.vals) || fresh(table.vals)
      ensures Valid() && old(s.polls.Keys) <= s.polls.Keys && s.watches.Keys == old(s.watches.Keys)
      ensures forall p | p in s.polls :: p in old(s.polls) || fresh(p)
      ensures Took(old(s), DoWatch(w, fd, dir), op, s)
    {
      hide *;
      Opened();
      op := OpNone;
      TookNothing(s, DoWatch(w, fd, dir));
      var allowed := CanWatch(w, fd, dir);
      if allowed {
        WatchAllowed(s, w, fd, dir);
        var p := Watch(w, fd, dir);
        op := OpWatch(w, fd, dir, p);
        TookWatch(old(s), w, fd, dir, p);
      }
    }

    /** One action of a callback; one that is not allowed is not taken. */
    method Act(a: Action) returns (ghost op: Op)
      requires Valid() && a.Watches() <= s.watches.Keys
      modifies this, s.polls.Keys, a.Watches()
      modifies table, table.flags, table.keys, table.vals
      ensures table.flags == old(table.flags) || fresh(table.flags)
      ensures table.keys == old(table.keys) || fresh(table.keys)
      ensures table.vals == old(table.vals) || fresh(table.vals)
      ensures Valid() && old(s.polls.Keys) <= s.polls.Keys && s.watches.Keys == old(s.watches.Keys)
      ensures forall p | p in s.polls :: p in old(s.polls) || fresh(p)
      ensures Took(old(s), a, op, s)
    {
      hide *;
      Opened();
      ActionWatches(a);
      TookNothing(s, a);
      op := OpNone;
      match a {
        case DoSet(w) =>
          TookSet(s, w);
          op := OpSet(w);
          SetFn(w);
        case DoWatch(w, fd, dir) =>
          op := ActWatch(w, fd, dir);
        case DoUnwatch(w) =>
          var allowed := IsWatching(w);
          UnwatchAllowed(s, w);
          if allowed {
            TookUnwatch(s, w);
            op := OpUnwatch(w);
            Unwatch(w);
          }
        case DoClose(fd) =>
          TookClose(s, fd);
          op := OpClose(fd);
          Close(fd);
      }
    }

    /** A callback: any sequence of actions; `ops` is what they came to. */
    method Callback(acts: seq<Action>) returns (ghost ops: seq<Op>)
      requires Valid() && forall a | a in acts :: a.Watches() <= s.watches.Keys
      modifies this, s.polls.Keys, s.watches.Keys
      modifies table, table.flags, table.keys, table.vals
      ensures table.flags == old(table.flags) || fresh(table.flags)
      ensures table.keys == old(table.keys) || fresh(table.keys)
      ensures table.vals == old(table.vals) || fresh(table.vals)
      ensures Valid() && old(s.polls.Keys) <= s.polls.Keys && s.watches.Keys == old(s.watches.Keys)
      ensures forall p | p in s.polls :: p in old(s.polls) || fresh(p)
      ensures Performed(old(s), acts, ops, s)
    {
      hide *;
      ops := [];
      Opened();
      PerformedNone(s);
      ghost var s0 := s;
      assert acts[..0] == [];
      for i := 0 to |acts|
        invariant Valid() && old(s.polls.Keys) <= s.polls.Keys && s.watches.Keys == old(s.watches.Keys)
        invariant table.flags == old(table.flags) || fresh(table.flags)
        invariant table.keys == old(table.keys) || fresh(table.keys)
        invariant table.vals == old(table.vals) || fresh(table.vals)
        invariant forall p | p in s.polls :: p in old(s.polls) || fresh(p)
        invariant Performed(s0, acts[..i], ops, s)
      {
        ghost var s1 := s;
        assert acts[i] in acts;
        ghost var op := Act(acts[i]);
        TookIs(s1, acts[i], op, s);
        PerformedOn(s0, acts, i, ops, s1, op);
        ops := ops + [op];
      }
      assert acts[..|acts|] == acts;
    }

    /** One test of the dispatch loop, and the call of the watcher it finds. */
    method Visit(e: Event, dir: Direction, acts: seq<Action>) returns (calls: seq<Call>, ghost ops: seq<Op>)
      requires Valid() && e.poller in s.polls && forall a | a in acts :: a.Watches() <= s.watches.Keys
      modifies this, s.polls.Keys, s.watches.Keys
      modifies table, table.flags, table.keys, table.vals
      ensures table.flags == old(table.flags) || fresh(table.flags)
      ensures table.keys == old(table.keys) || fresh(table.keys)
      ensures table.vals == old(table.vals) || fresh(table.vals)
      ensures Valid() && old(s.polls.Keys) <= s.polls.Keys && s.watches.Keys == old(s.watches.Keys)
      ensures forall p | p in s.polls :: p in old(s.polls) || fresh(p)
      ensures calls == SlotCall(old(s), e, dir)
      ensures Performed(old(s), if calls != [] then acts else [], ops, s)
    {
      hide *;
      PerformedNone(s);
      var p := e.poller;
      Looks(p);
      SlotCallIs(s, e, dir);
      calls, ops := [], [];
      var w := if dir == Read then p.rd else p.wr;
      if w != null && e.events * (if dir == Read then {In, Hup} else {Out}) != {} {
        calls := [Call(p, w)];
        ops := Callback(acts);
      }
    }

    /** The body of the dispatch loop; `calls` are the watchers whose callbacks it calls. */
    method DispatchOne(e: Event, h: Handlers) returns (ran: Ran, calls: seq<Call>, ghost look: Look)
      requires Valid() && e.poller in s.polls && h.Watches() <= s.watches.Keys
      modifies this, s.polls.Keys, s.watches.Keys
      modifies table, table.flags, table.keys, table.vals
      ensures table.flags == old(table.flags) || fresh(table.flags)
      ensures table.keys == old(table.keys) || fresh(table.keys)
      ensures table.vals == old(table.vals) || fresh(table.vals)
      ensures Valid() && old(s.polls.Keys) <= s.polls.Keys && s.watches.Keys == old(s.watches.Keys)
      ensures forall p | p in s.polls :: p in old(s.polls) || fresh(p)
      ensures look.before == old(s) && Turn(look, s, e, h)
      ensures ran == Ran(ReadCall(look.before, e) != [], WriteCall(look.mid, e) != []) && calls == Calls(look, e)
    {
      hide *;
      Opened();
      HandlerWatches(h);
      ghost var before := s;
      var readCalls, writeCalls;
      ghost var read, written;
      readCalls, read := Visit(e, Read, h.reading);
      Opened();
      ghost var mid := s;
      writeCalls, written := Visit(e, Write, h.writing);
      look := Look(before, read, mid, written);
      IsTurn(look, s, e, h, readCalls, writeCalls);
      ran, calls := Ran(readCalls != [], writeCalls != []), readCalls + writeCalls;
    }

    lemma HandlerWatches(h: Handlers)
      requires h.Watches() <= s.watches.Keys
      ensures forall a | a in h.reading :: a.Watches() <= s.watches.Keys
      ensures forall a | a in h.writing :: a.Watches() <= s.watches.Keys
    {
    }

    /**
    The dispatch loop of `evloop_step`.  `script[i]` says what the reader's and the writer's
    callback do if the `i`-th event reaches them; `trace` tells the states in which each event
    was looked at, and what the callbacks did; `calls` are the callbacks that ran.
    */
    method Dispatch(batch: seq<Event>, script: seq<Handlers>)
      returns (ran: seq<Ran>, calls: seq<Call>, ghost trace: seq<Look>)
      requires Valid() && |batch| <= |script| && forall e | e in batch :: e.poller in s.polls
      requires forall h | h in script :: h.Watches() <= s.watches.Keys
      modifies this, s.polls.Keys, s.watches.Keys
      modifies table, table.flags, table.keys, table.vals
      ensures table.flags == old(table.flags) || fresh(table.flags)
      ensures table.keys == old(table.keys) || fresh(table.keys)
      ensures table.vals == old(table.vals) || fresh(table.vals)
      ensures Valid() && old(s.polls.Keys) <= s.polls.Keys && s.watches.Keys == old(s.watches.Keys)
      ensures forall p | p in s.polls :: p in old(s.polls) || fresh(p)
      ensures Traced(old(s), batch, script, trace, s)
      ensures |trace| == |ran| == |batch| && calls == AllCalls(batch, trace)
      ensures forall k | 0 <= k < |ran| ::
                && (ran[k].read <==> ReadCall(trace[k].before, batch[k]) != [])
                && (ran[k].written <==> WriteCall(trace[k].mid, batch[k]) != [])
    {
      hide *;
      ran, calls, trace := [], [], [];
      TracedNone(s, script);
      AllCallsNone();
      ghost var s0 := s;
      var i := 0;
      while i < |batch|
        invariant 0 <= i <= |batch|
        invariant Valid() && old(s.polls.Keys) <= s.polls.Keys && s.watches.Keys == old(s.watches.Keys)
        invariant table.flags == old(table.flags) || fresh(table.flags)
        invariant table.keys == old(table.keys) || fresh(table.keys)
        invariant table.vals == old(table.vals) || fresh(table.vals)
        invariant forall p | p in s.polls :: p in old(s.polls) || fresh(p)
        invariant Traced(s0, batch[..i], script, trace, s)
        invariant |trace| == |ran| == i && calls == AllCalls(batch[..i], trace)
        invariant forall k | 0 <= k < i ::
                    && (ran[k].read <==> ReadCall(trace[k].before, batch[k]) != [])
                    && (ran[k].written <==> WriteCall(trace[k].mid, batch[k]) != [])
      {
        ghost var before := s;
        assert script[i] in script;
        var r, more;
        ghost var look;
        r, more, look := DispatchOne(batch[i], script[i]);
        TracedOn(s0, batch, script, i, trace, before, look, s);
        AllCallsNext(batch, i, trace, look);
        ran, calls, trace := ran + [r], calls + more, trace + [look];
        i := i + 1;
      }
      assert batch[..i] == batch;
    }

    lemma AllCallsNone()
      ensures AllCalls([], []) == []
    {
    }

    /** The descriptors' part of `evloop_step`: flush, wait for at most 16 events, dispatch them. */
    method Step(ready: seq<Ready>, script: seq<Handlers>)
      returns (ran: seq<Ran>, calls: seq<Call>, ghost batch: seq<Event>, ghost trace: seq<Look>)
      requires Valid() && |ready| == |script| <= 16
      requires forall h | h in script :: h.Watches() <= s.watches.Keys
      modifies this, s.polls.Keys, s.watches.Keys
      modifies table, table.flags, table.keys, table.vals
      ensures table.flags == old(table.flags) || fresh(table.flags)
      ensures table.keys == old(table.keys) || fresh(table.keys)
      ensures table.vals == old(table.vals) || fresh(table.vals)
      ensures Valid() && |batch| <= |ready| && s.watches.Keys == old(s.watches.Keys)
      ensures forall p | p in s.polls :: p in old(s.polls) || fresh(p)
      ensures old(Inv(s)) && batch == Reported(FlushAll(old(s)).kernel, ready)
      ensures Traced(FlushAll(old(s)), batch, script, trace, s)
      ensures |trace| == |ran| == |batch| && calls == AllCalls(batch, trace)
      ensures forall k | 0 <= k < |ran| ::
                && (ran[k].read <==> ReadCall(trace[k].before, batch[k]) != [])
                && (ran[k].written <==> WriteCall(trace[k].mid, batch[k]) != [])
      ensures forall p | p in old(s.polls) :: p in s.polls <==> Open(old(s.polls[p]))
    {
      hide *;
      Opened();
      Flush();
      Opened();
      var known := Reported(kernel, ready);
      ReportedAllocated(s, ready);
      batch := known;
      ran, calls, trace := Dispatch(known, script);
    }
  }
}
