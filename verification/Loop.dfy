/**
The whole event loop, `evloop_step` called again and again: the timers of `Timers` and the
descriptors of `Epoll`, whose callbacks may use both.

`TurnOf` says what one turn does to the queue, the clock and the registrations; `Run` performs any
number of turns, and the lemmas before it say what holds along every run.  The two halves share no
object, so the order in which one callback uses the one and the other does not matter; here the
actions on one half follow those on the other.
*/
module Loop {
  import T = Timers
  import E = Epoll
  import R = Registry
  import opened Probe
  import opened Heap

  /** What a descriptor's callbacks do to timers. */
  datatype TimerHandlers = TimerHandlers(reading: seq<T.Action>, writing: seq<T.Action>)

  /**
  What one turn meets: the actions of timer callbacks on timers, which from the call `limit` on arm
  strictly ahead, and on descriptors; the descriptors `epoll_wait` finds ready, and the actions of
  their callbacks on descriptors and on timers; and how long it takes for them to become ready.
  */
  datatype Input = Input(
    timerScript: T.Script, limit: nat, timerActs: (nat, Node) -> seq<E.Action>,
    ready: seq<E.Ready>, script: seq<E.Handlers>, timerHandlers: seq<TimerHandlers>, elapsed: nat)

  /** The queue, the true time and the registrations at one moment. */
  datatype View = View(dl: map<Node, int>, time: int, s: R.State)

  /**
  What one turn did: the timer callbacks, the states between their actions on descriptors and the
  operations these came to; the dispatch, and the queues between the events.
  */
  datatype Log = Log(
    fired: seq<T.Firing>, states: seq<R.State>, ops: seq<seq<R.Op>>,
    batch: seq<E.Event>, trace: seq<E.Look>, calls: seq<E.Call>, queues: seq<map<Node, int>>)

  /** What the callbacks of one event do to the timers: the reader's if it was called, then the writer's. */
  function AfterEvent(dl: map<Node, int>, time: int, h: TimerHandlers, read: bool, written: bool): map<Node, int> {
    T.Effects(T.Effects(dl, time, if read then h.reading else []), time, if written then h.writing else [])
  }

  /** The callbacks use timers of `pool` and watches of `watches`, and ask for delays within bounds. */
  ghost predicate Admissible(x: Input, pool: set<Node>, watches: set<R.Watch>, maxDelay: nat, maxLate: nat) {
    && (forall i: nat, n | n in pool ::
          T.Nodes(x.timerScript(i, n)) <= pool && T.InBounds(x.timerScript(i, n), maxDelay, maxLate))
    && (forall i: nat, n | i >= x.limit && n in pool :: T.Ahead(x.timerScript(i, n)))
    && (forall i: nat, n, a | n in pool && a in x.timerActs(i, n) :: a.Watches() <= watches)
    && |x.ready| == |x.script| == |x.timerHandlers| <= 16
    && (forall h | h in x.script :: h.Watches() <= watches)
    && (forall h | h in x.timerHandlers ::
          && T.Nodes(h.reading) <= pool && T.InBounds(h.reading, maxDelay, maxLate)
          && T.Nodes(h.writing) <= pool && T.InBounds(h.writing, maxDelay, maxLate))
  }

  /**
  How long `epoll_wait` takes: until something is ready, or until its timeout, which is the wait
  for the earliest deadline, and then at most `maxLate` more.
  */
  function Slept(wait: int, elapsed: nat, maxLate: nat): nat {
    if 0 <= wait && wait + maxLate < elapsed then wait + maxLate else elapsed
  }

  /** The argument `epoll_wait` gets: no timeout when no timer is queued. */
  ghost predicate IsWait(dl: map<Node, int>, time: int, wait: int) {
    if dl == map[] then wait == -1 else exists n :: n in dl && T.Earliest(dl, n) && wait == dl[n] - time
  }

  /** The reader, or the writer, of event `i` was called. */
  ghost predicate ReadRan(l: Log, i: nat)
    requires i < |l.batch| == |l.trace|
  {
    E.ReadCall(l.trace[i].before, l.batch[i]) != []
  }

  ghost predicate WriteRan(l: Log, i: nat)
    requires i < |l.batch| == |l.trace|
  {
    E.WriteCall(l.trace[i].mid, l.batch[i]) != []
  }

  /** The callbacks of the calls `fired` act on descriptors one after the other, through `states`. */
  ghost predicate Acted(acts: (nat, Node) -> seq<E.Action>, called: seq<Node>,
                        states: seq<R.State>, ops: seq<seq<R.Op>>)
  {
    && |states| == |called| + 1 && |ops| == |called|
    && forall k | 0 <= k < |called| :: E.Performed(states[k], acts(k, called[k]), ops[k], states[k + 1])
  }

  function Called(fired: seq<T.Firing>): seq<Node> {
    seq(|fired|, k requires 0 <= k < |fired| => fired[k].node)
  }

  /** The callbacks of the events act on timers one after the other, through `queues`. */
  ghost predicate Requeued(time: int, hs: seq<TimerHandlers>, ran: seq<E.Ran>, queues: seq<map<Node, int>>) {
    && |queues| == |ran| + 1 && |ran| <= |hs|
    && forall i | 0 <= i < |ran| :: queues[i + 1] == AfterEvent(queues[i], time, hs[i], ran[i].read, ran[i].written)
  }

  /** Which callbacks of the events ran. */
  ghost function AllRan(l: Log): seq<E.Ran>
    requires |l.batch| == |l.trace|
  {
    seq(|l.batch|, i requires 0 <= i < |l.batch| => E.Ran(ReadRan(l, i), WriteRan(l, i)))
  }

  /** A turn in which timers were due: they fire, and neither the kernel nor the clock is looked at. */
  ghost predicate TimerTurn(a: View, x: Input, l: Log, b: View) {
    && T.Fires(a.dl, a.time, x.timerScript, l.fired) && l.fired != []
    && b.dl == T.Queued(a.dl, a.time, x.timerScript, l.fired) && b.time == a.time && T.Expired(b.dl, b.time) == {}
    && Acted(x.timerActs, Called(l.fired), l.states, l.ops)
    && l.states[0] == a.s && l.states[|l.fired|] == b.s
    && l.batch == [] && l.trace == [] && l.calls == [] && l.queues == []
  }

  /** A turn in which none was due: flush, wait, clock, dispatch. */
  ghost predicate PollTurn(a: View, x: Input, l: Log, b: View, maxLate: nat) {
    && l.fired == [] && l.states == [] && l.ops == []
    && R.Inv(a.s) && |l.trace| == |l.batch| <= |x.timerHandlers|
    && l.batch == E.Reported(R.FlushAll(a.s).kernel, x.ready)
    && E.Traced(R.FlushAll(a.s), l.batch, x.script, l.trace, b.s) && l.calls == E.AllCalls(l.batch, l.trace)
    && a.time <= b.time
    && (exists wait :: IsWait(a.dl, a.time, wait) && b.time == a.time + Slept(wait, x.elapsed, maxLate))
    && Requeued(b.time, x.timerHandlers, AllRan(l), l.queues)
    && l.queues[0] == a.dl && l.queues[|l.batch|] == b.dl
  }

  /** `evloop_step` takes the loop from `a` to `b`. */
  ghost predicate TurnOf(a: View, x: Input, l: Log, b: View, maxLate: nat) {
    if T.Expired(a.dl, a.time) != {} then TimerTurn(a, x, l, b) else PollTurn(a, x, l, b, maxLate)
  }

  // ---------- turns on values ----------

  /** Events within bounds keep the window, and queue timers of `pool` only. */
  lemma AfterEventWindowed(dl: map<Node, int>, time: int, h: TimerHandlers, read: bool, written: bool,
                           pool: set<Node>, maxDelay: nat, maxLate: nat)
    requires T.Windowed(dl, time, maxDelay, maxLate) && dl.Keys <= pool
    requires T.Nodes(h.reading) <= pool && T.InBounds(h.reading, maxDelay, maxLate)
    requires T.Nodes(h.writing) <= pool && T.InBounds(h.writing, maxDelay, maxLate)
    ensures var dl' := AfterEvent(dl, time, h, read, written);
            T.Windowed(dl', time, maxDelay, maxLate) && dl'.Keys <= pool
  {
    hide T.Effects;
    var first := if read then h.reading else [];
    T.EffectsWindowed(dl, time, first, maxDelay, maxLate);
    T.EffectsWindowed(T.Effects(dl, time, first), time, if written then h.writing else [], maxDelay, maxLate);
  }

  lemma {:induction false} RequeuedWindowed(time: int, hs: seq<TimerHandlers>, ran: seq<E.Ran>,
                                            queues: seq<map<Node, int>>, i: nat,
                                            pool: set<Node>, maxDelay: nat, maxLate: nat)
    requires Requeued(time, hs, ran, queues) && i <= |ran|
    requires T.Windowed(queues[0], time, maxDelay, maxLate) && queues[0].Keys <= pool
    requires forall h | h in hs ::
               && T.Nodes(h.reading) <= pool && T.InBounds(h.reading, maxDelay, maxLate)
               && T.Nodes(h.writing) <= pool && T.InBounds(h.writing, maxDelay, maxLate)
    ensures T.Windowed(queues[i], time, maxDelay, maxLate) && queues[i].Keys <= pool
  {
    hide AfterEvent, T.Windowed, T.InBounds, T.Nodes;
    if i > 0 {
      RequeuedWindowed(time, hs, ran, queues, i - 1, pool, maxDelay, maxLate);
      assert hs[i - 1] in hs;
      AfterEventWindowed(queues[i - 1], time, hs[i - 1], ran[i - 1].read, ran[i - 1].written, pool, maxDelay, maxLate);
    }
  }

  /** No callback that ran for event `i` is about timer `n`. */
  ghost predicate EventSpares(h: TimerHandlers, r: E.Ran, n: Node) {
    (r.read ==> n !in T.Nodes(h.reading)) && (r.written ==> n !in T.Nodes(h.writing))
  }

  lemma {:induction false} RequeuedSpares(time: int, hs: seq<TimerHandlers>, ran: seq<E.Ran>,
                                          queues: seq<map<Node, int>>, i: nat, j: nat, n: Node)
    requires Requeued(time, hs, ran, queues) && i <= j <= |ran|
    requires forall k | i <= k < j :: EventSpares(hs[k], ran[k], n)
    ensures n in queues[j] <==> n in queues[i]
    ensures n in queues[i] ==> queues[j][n] == queues[i][n]
    decreases j
  {
    hide T.Effects, T.Nodes;
    if i < j {
      var k := j - 1;
      RequeuedSpares(time, hs, ran, queues, i, k, n);
      assert EventSpares(hs[k], ran[k], n);
      var first := if ran[k].read then hs[k].reading else [];
      NoNodes();
      T.EffectsSpare(queues[k], time, first, n);
      T.EffectsSpare(T.Effects(queues[k], time, first), time, if ran[k].written then hs[k].writing else [], n);
    }
  }

  lemma NoNodes()
    ensures T.Nodes([]) == {}
  {
  }

  /** Timers' callbacks that act on descriptors keep the invariant. */
  lemma {:induction false} ActedKeeps(acts: (nat, Node) -> seq<E.Action>, called: seq<Node>, states: seq<R.State>,
                                      ops: seq<seq<R.Op>>, k: nat)
    requires Acted(acts, called, states, ops) && R.Inv(states[0]) && k <= |called|
    ensures R.Inv(states[k])
  {
    hide R.Inv, E.Performed;
    if k > 0 {
      ActedKeeps(acts, called, states, ops, k - 1);
      assert E.Performed(states[k - 1], acts(k - 1, called[k - 1]), ops[k - 1], states[k]);
      E.PerformedDid(states[k - 1], acts(k - 1, called[k - 1]), ops[k - 1], states[k]);
      E.DidRetains(states[k - 1], ops[k - 1], states[k]);
    }
  }

  /** Only timers of the pool fire. */
  lemma FiredInPool(dl0: map<Node, int>, time: int, script: T.Script, fired: seq<T.Firing>,
                    pool: set<Node>, maxDelay: nat, maxLate: nat)
    requires T.Fires(dl0, time, script, fired)
    requires T.Windowed(dl0, time, maxDelay, maxLate) && dl0.Keys <= pool
    requires forall i: nat, n | n in pool ::
               T.Nodes(script(i, n)) <= pool && T.InBounds(script(i, n), maxDelay, maxLate)
    ensures forall k | 0 <= k < |fired| :: fired[k].node in pool && time - maxLate <= fired[k].deadline <= time
  {
    hide T.Windowed, T.InBounds, T.Nodes, T.Queued;
    forall k | 0 <= k < |fired| ensures fired[k].node in pool && time - maxLate <= fired[k].deadline <= time {
      T.FiresBefore(dl0, time, script, fired, k);
      T.QueuedWindowed(dl0, time, script, fired[..k], pool, maxDelay, maxLate);
      InWindow(T.Queued(dl0, time, script, fired[..k]), time, fired[k].node, maxDelay, maxLate);
    }
  }

  lemma InWindow(dl: map<Node, int>, time: int, n: Node, maxDelay: nat, maxLate: nat)
    requires T.Windowed(dl, time, maxDelay, maxLate) && n in dl
    ensures time - maxLate <= dl[n] <= time + maxDelay
  {
  }

  /** What is ready before the timeout ends the wait then; else it ends with the timeout, or at most `maxLate` later. */
  lemma SleptIs(wait: int, elapsed: nat, maxLate: nat)
    ensures wait < 0 || elapsed <= wait ==> Slept(wait, elapsed, maxLate) == elapsed
    ensures 0 <= wait < elapsed ==> wait <= Slept(wait, elapsed, maxLate) <= wait + maxLate
  {
  }

  /** A wait that ends `maxLate` after the earliest deadline at most keeps the window. */
  lemma SleptIsTimely(dl: map<Node, int>, time: int, wait: int, elapsed: nat, maxDelay: nat, maxLate: nat)
    requires T.Windowed(dl, time, maxDelay, maxLate) && T.Expired(dl, time) == {} && IsWait(dl, time, wait)
    ensures var later := time + Slept(wait, elapsed, maxLate);
            && T.Windowed(dl, later, maxDelay, maxLate) && forall n | n in dl :: later <= dl[n] + maxLate
  {
    if dl != map[] {
      var e :| e in dl && T.Earliest(dl, e) && wait == dl[e] - time;
      assert e !in T.Expired(dl, time);
    }
  }

  lemma AdmissibleParts(x: Input, pool: set<Node>, watches: set<R.Watch>, maxDelay: nat, maxLate: nat)
    requires Admissible(x, pool, watches, maxDelay, maxLate)
    ensures forall i: nat, n | n in pool ::
              T.Nodes(x.timerScript(i, n)) <= pool && T.InBounds(x.timerScript(i, n), maxDelay, maxLate)
    ensures forall i: nat, n | i >= x.limit && n in pool :: T.Ahead(x.timerScript(i, n))
    ensures forall i: nat, n, a | n in pool && a in x.timerActs(i, n) :: a.Watches() <= watches
    ensures |x.ready| == |x.script| == |x.timerHandlers| <= 16
    ensures forall h | h in x.script :: h.Watches() <= watches
    ensures forall h | h in x.timerHandlers ::
              && T.Nodes(h.reading) <= pool && T.InBounds(h.reading, maxDelay, maxLate)
              && T.Nodes(h.writing) <= pool && T.InBounds(h.writing, maxDelay, maxLate)
  {
  }

  lemma LaterWord(time: int, slept: nat)
    ensures U32(U32(time) + slept) == U32(time + slept)
  {
  }

  lemma IsPollTurn(a: View, x: Input, l: Log, b: View, wait: int, ran: seq<E.Ran>, maxLate: nat)
    requires l.fired == [] && l.states == [] && l.ops == []
    requires R.Inv(a.s) && |ran| == |l.trace| == |l.batch| <= |x.timerHandlers|
    requires l.batch == E.Reported(R.FlushAll(a.s).kernel, x.ready)
    requires E.Traced(R.FlushAll(a.s), l.batch, x.script, l.trace, b.s) && l.calls == E.AllCalls(l.batch, l.trace)
    requires IsWait(a.dl, a.time, wait) && b.time == a.time + Slept(wait, x.elapsed, maxLate)
    requires forall k | 0 <= k < |ran| ::
               && (ran[k].read <==> E.ReadCall(l.trace[k].before, l.batch[k]) != [])
               && (ran[k].written <==> E.WriteCall(l.trace[k].mid, l.batch[k]) != [])
    requires Requeued(b.time, x.timerHandlers, ran, l.queues)
    requires l.queues[0] == a.dl && l.queues[|l.batch|] == b.dl
    ensures PollTurn(a, x, l, b, maxLate)
  {
    hide IsWait, R.Inv, E.Traced, R.FlushAll, E.ReadCall, E.WriteCall;
    assert ran == AllRan(l);
  }

  lemma IsTimerTurn(a: View, x: Input, l: Log, b: View, called: seq<Node>)
    requires T.Fires(a.dl, a.time, x.timerScript, l.fired) && l.fired != []
    requires |called| == |l.fired| && forall k | 0 <= k < |called| :: called[k] == l.fired[k].node
    requires b.dl == T.Queued(a.dl, a.time, x.timerScript, l.fired) && b.time == a.time && T.Expired(b.dl, b.time) == {}
    requires l.batch == [] && l.trace == [] && l.calls == [] && l.queues == []
    requires Acted(x.timerActs, called, l.states, l.ops) && l.states[0] == a.s && l.states[|called|] == b.s
    ensures TimerTurn(a, x, l, b)
  {
    hide Acted, T.Fires, T.Queued, T.Expired;
    assert called == Called(l.fired);
  }

  lemma IsWaitFor(dl: map<Node, int>, time: int, wait: int)
    requires wait == -1 <==> dl == map[]
    requires wait > 0 ==> exists n :: T.Earliest(dl, n) && wait == dl[n] - time
    ensures wait >= -1 && wait != 0 ==> IsWait(dl, time, wait)
  {
  }

  lemma IsTurn(a: View, x: Input, l: Log, b: View, maxLate: nat)
    ensures T.Expired(a.dl, a.time) != {} && TimerTurn(a, x, l, b) ==> TurnOf(a, x, l, b, maxLate)
    ensures T.Expired(a.dl, a.time) == {} && PollTurn(a, x, l, b, maxLate) ==>
              TurnOf(a, x, l, b, maxLate)
  {
  }

  // ---------- what a turn decides ----------

  /** The clock after a wait: until something was ready, or for the earliest deadline, at most `maxLate` late. */
  lemma PollClock(a: View, x: Input, l: Log, b: View, maxLate: nat)
    requires TurnOf(a, x, l, b, maxLate) && T.Expired(a.dl, a.time) == {}
    ensures (forall n | n in a.dl :: a.time + x.elapsed <= a.dl[n]) ==> b.time == a.time + x.elapsed
    ensures (exists n :: n in a.dl && a.dl[n] < a.time + x.elapsed) ==>
              exists e :: e in a.dl && T.Earliest(a.dl, e) && a.dl[e] <= b.time <= a.dl[e] + maxLate
  {
    hide R.Inv, R.FlushAll, E.Traced, Requeued, AllRan, T.Expired;
    var wait :| IsWait(a.dl, a.time, wait) && b.time == a.time + Slept(wait, x.elapsed, maxLate);
    SleptIs(wait, x.elapsed, maxLate);
    NotDue(a.dl, a.time, wait);
  }

  lemma NotDue(dl: map<Node, int>, time: int, wait: int)
    requires T.Expired(dl, time) == {} && IsWait(dl, time, wait)
    ensures dl != map[] ==> wait > 0 && exists e :: e in dl && T.Earliest(dl, e) && wait == dl[e] - time
  {
    if dl != map[] {
      var e :| e in dl && T.Earliest(dl, e) && wait == dl[e] - time;
      assert e !in T.Expired(dl, time);
    }
  }

  /** The actions of the callback for direction `dir`, and whether it ran. */
  function ActsOf(h: TimerHandlers, dir: R.Direction): seq<T.Action> {
    if dir == R.Read then h.reading else h.writing
  }

  /**
  What a callback that ran does last about a timer holds after its event, if the event's other
  callback does not follow with something about the timer.
  */
  lemma EventDecides(dl: map<Node, int>, time: int, h: TimerHandlers, read: bool, written: bool,
                     dir: R.Direction, j: nat)
    requires (if dir == R.Read then read else written) && j < |ActsOf(h, dir)|
    requires ActsOf(h, dir)[j].node !in T.Nodes(ActsOf(h, dir)[j + 1..])
    requires dir == R.Read && written ==> ActsOf(h, dir)[j].node !in T.Nodes(h.writing)
    ensures var acts, after := ActsOf(h, dir), AfterEvent(dl, time, h, read, written);
            match acts[j]
            case Cancel(n) => n !in after
            case Arm(n, delay) =>
              (n !in dl && n !in T.Nodes(acts[..j]) && (dir == R.Write && read ==> n !in T.Nodes(h.reading)))
              || (j > 0 && acts[j - 1] == T.Cancel(n)) ==>
                n in after && after[n] == time + delay
  {
    hide T.Effects, T.Nodes;
    NoNodes();
    var n := ActsOf(h, dir)[j].node;
    var mid := T.Effects(dl, time, if read then h.reading else []);
    if dir == R.Read {
      T.LastDecides(dl, time, h.reading, j);
      T.EffectsSpare(mid, time, if written then h.writing else [], n);
    } else {
      T.LastDecides(mid, time, h.writing, j);
      if !(read && n in T.Nodes(h.reading)) {
        T.EffectsSpare(dl, time, if read then h.reading else [], n);
      }
    }
  }

  /**
  A turn's dispatch and the timers: if the callback for `dir` of event `i` ran and the callbacks
  that ran after it leave the timer of its action `j` alone, a stopped timer is not queued in the
  end, and one that was armed, not having been queued, waits for its deadline.
  */
  lemma PollDecides(a: View, x: Input, l: Log, b: View, maxLate: nat, i: nat, dir: R.Direction, j: nat)
    requires TurnOf(a, x, l, b, maxLate) && T.Expired(a.dl, a.time) == {}
    requires i < |l.batch| == |l.trace| <= |x.timerHandlers| && j < |ActsOf(x.timerHandlers[i], dir)|
    requires if dir == R.Read then E.ReadCall(l.trace[i].before, l.batch[i]) != []
             else E.WriteCall(l.trace[i].mid, l.batch[i]) != []
    requires var acts := ActsOf(x.timerHandlers[i], dir);
             && acts[j].node !in T.Nodes(acts[j + 1..])
             && (dir == R.Read && E.WriteCall(l.trace[i].mid, l.batch[i]) != [] ==>
                   acts[j].node !in T.Nodes(x.timerHandlers[i].writing))
             && forall k | i < k < |l.batch| :: EventLeaves(x, l, k, acts[j].node)
    ensures var acts := ActsOf(x.timerHandlers[i], dir);
            match acts[j]
            case Cancel(n) => n !in b.dl
            case Arm(n, delay) =>
              || (&& n !in a.dl && n !in T.Nodes(acts[..j]) && (forall k | 0 <= k < i :: EventLeaves(x, l, k, n))
                  && (dir == R.Write && E.ReadCall(l.trace[i].before, l.batch[i]) != [] ==>
                        n !in T.Nodes(x.timerHandlers[i].reading)))
              || (j > 0 && acts[j - 1] == T.Cancel(n)) ==>
                n in b.dl && b.dl[n] == b.time + delay
  {
    hide R.Inv, R.FlushAll, E.Traced, AllRan, T.Expired, T.Nodes, AfterEvent, E.ReadCall, E.WriteCall, IsWait, ActsOf;
    AllRanLength(l);
    var n, ran, hs := ActsOf(x.timerHandlers[i], dir)[j].node, AllRan(l), x.timerHandlers;
    forall k | i < k < |l.batch| ensures EventSpares(hs[k], ran[k], n) {
      assert EventLeaves(x, l, k, n);
    }
    RequeuedSpares(b.time, hs, ran, l.queues, i + 1, |l.batch|, n);
    EventDecides(l.queues[i], b.time, hs[i], ran[i].read, ran[i].written, dir, j);
    if forall k | 0 <= k < i :: EventLeaves(x, l, k, n) {
      forall k | 0 <= k < i ensures EventSpares(hs[k], ran[k], n) {
        assert EventLeaves(x, l, k, n);
      }
      RequeuedSpares(b.time, hs, ran, l.queues, 0, i, n);
    }
  }

  /** The callbacks of event `k` that ran are not about timer `n`. */
  ghost predicate EventLeaves(x: Input, l: Log, k: nat, n: Node)
    requires k < |l.batch| == |l.trace| <= |x.timerHandlers|
  {
    && (E.ReadCall(l.trace[k].before, l.batch[k]) != [] ==> n !in T.Nodes(x.timerHandlers[k].reading))
    && (E.WriteCall(l.trace[k].mid, l.batch[k]) != [] ==> n !in T.Nodes(x.timerHandlers[k].writing))
  }

  /** A descriptor closed by the callback of a timer that fired, and not watched again, has no poller in the end. */
  lemma TimerCloses(a: View, x: Input, l: Log, b: View, maxLate: nat, k: nat, i: nat, fd: int)
    requires TurnOf(a, x, l, b, maxLate) && T.Expired(a.dl, a.time) != {} && R.Inv(a.s)
    requires k < |l.fired| && i < |x.timerActs(k, l.fired[k].node)|
    requires x.timerActs(k, l.fired[k].node)[i] == E.DoClose(fd)
    requires forall c | c in x.timerActs(k, l.fired[k].node)[i + 1..] && c.DoWatch? :: c.fd != fd
    requires forall m, c | k < m < |l.fired| && c in x.timerActs(m, l.fired[m].node) && c.DoWatch? :: c.fd != fd
    ensures fd !in b.s.pollers && fd !in b.s.kernel
  {
    hide R.Inv, E.Performed, T.Expired, T.Fires, T.Queued;
    var called := Called(l.fired);
    ActedKeeps(x.timerActs, called, l.states, l.ops, k);
    assert E.Performed(l.states[k], x.timerActs(k, called[k]), l.ops[k], l.states[k + 1]);
    E.CloseDecides(l.states[k], x.timerActs(k, called[k]), l.ops[k], l.states[k + 1], i, fd);
    StaysClosed(x.timerActs, called, l.states, l.ops, k + 1, |called|, fd);
  }

  lemma {:induction false} StaysClosed(acts: (nat, Node) -> seq<E.Action>, called: seq<Node>, states: seq<R.State>,
                                       ops: seq<seq<R.Op>>, k: nat, m: nat, fd: int)
    requires Acted(acts, called, states, ops) && R.Inv(states[0]) && k <= m <= |called|
    requires fd !in states[k].pollers && fd !in states[k].kernel
    requires forall i, c | k <= i < m && c in acts(i, called[i]) && c.DoWatch? :: c.fd != fd
    ensures fd !in states[m].pollers && fd !in states[m].kernel
    decreases m
  {
    hide R.Inv, E.Performed;
    if k < m {
      var p := m - 1;
      StaysClosed(acts, called, states, ops, k, p, fd);
      ActedKeeps(acts, called, states, ops, p);
      assert E.Performed(states[p], acts(p, called[p]), ops[p], states[m]);
      E.StaysClosed(states[p], acts(p, called[p]), ops[p], states[m], fd);
    }
  }

  // ---------- runs ----------

  /** The turns `xs` lead through the moments `views`, with the logs `logs`. */
  ghost predicate Turns(views: seq<View>, xs: seq<Input>, logs: seq<Log>, maxLate: nat) {
    && |views| == |xs| + 1 && |logs| == |xs|
    && forall i | 0 <= i < |xs| :: TurnOf(views[i], xs[i], logs[i], views[i + 1], maxLate)
  }

  lemma TurnsNone(a: View, maxLate: nat)
    ensures Turns([a], [], [], maxLate)
  {
  }

  lemma TurnsNext(views: seq<View>, xs: seq<Input>, n: nat, logs: seq<Log>, b: View, log: Log, maxLate: nat)
    requires n < |xs| && Turns(views, xs[..n], logs, maxLate) && |views| == n + 1
    requires TurnOf(views[n], xs[n], log, b, maxLate)
    ensures Turns(views + [b], xs[..n + 1], logs + [log], maxLate)
  {
    hide TurnOf;
    var views', logs' := views + [b], logs + [log];
    forall i | 0 <= i <= n ensures TurnOf(views'[i], xs[..n + 1][i], logs'[i], views'[i + 1], maxLate) {
      assert i < n ==> TurnOf(views[i], xs[..n][i], logs[i], views[i + 1], maxLate);
    }
  }

  /** What holds between turns: the window, which timers are queued, and the registrations' invariant. */
  ghost predicate Sound(a: View, pool: set<Node>, maxDelay: nat, maxLate: nat) {
    T.Windowed(a.dl, a.time, maxDelay, maxLate) && a.dl.Keys <= pool && R.Inv(a.s)
  }

  ghost predicate AllAdmissible(xs: seq<Input>, pool: set<Node>, watches: set<R.Watch>, maxDelay: nat, maxLate: nat) {
    forall i | 0 <= i < |xs| :: Admissible(xs[i], pool, watches, maxDelay, maxLate)
  }

  lemma AllRanLength(l: Log)
    requires |l.batch| == |l.trace|
    ensures |AllRan(l)| == |l.batch|
    ensures forall i | 0 <= i < |l.batch| :: AllRan(l)[i] == E.Ran(ReadRan(l, i), WriteRan(l, i))
  {
  }

  lemma TurnKeeps(a: View, x: Input, l: Log, b: View,
                  pool: set<Node>, watches: set<R.Watch>, maxDelay: nat, maxLate: nat)
    requires Sound(a, pool, maxDelay, maxLate) && Admissible(x, pool, watches, maxDelay, maxLate)
    requires TurnOf(a, x, l, b, maxLate)
    ensures Sound(b, pool, maxDelay, maxLate)
  {
    hide Admissible, T.Windowed, R.Inv, T.Expired, T.Fires, T.Queued, R.FlushAll, E.Traced, IsWait;
    hide AllRan, Acted, Requeued;
    AdmissibleParts(x, pool, watches, maxDelay, maxLate);
    if T.Expired(a.dl, a.time) != {} {
      T.QueuedWindowed(a.dl, a.time, x.timerScript, l.fired, pool, maxDelay, maxLate);
      ActedKeeps(x.timerActs, Called(l.fired), l.states, l.ops, |l.fired|);
    } else {
      var wait :| IsWait(a.dl, a.time, wait) && b.time == a.time + Slept(wait, x.elapsed, maxLate);
      SleptIsTimely(a.dl, a.time, wait, x.elapsed, maxDelay, maxLate);
      AllRanLength(l);
      RequeuedWindowed(b.time, x.timerHandlers, AllRan(l), l.queues, |l.batch|, pool, maxDelay, maxLate);
      R.FlushAllFlushes(a.s);
      E.TracedKeeps(R.FlushAll(a.s), l.batch, x.script, l.trace, b.s);
    }
  }

  lemma {:induction false} RunKeeps(views: seq<View>, xs: seq<Input>, logs: seq<Log>, j: nat,
                                    pool: set<Node>, watches: set<R.Watch>, maxDelay: nat, maxLate: nat)
    requires Turns(views, xs, logs, maxLate) && AllAdmissible(xs, pool, watches, maxDelay, maxLate) && j <= |xs|
    requires Sound(views[0], pool, maxDelay, maxLate)
    ensures Sound(views[j], pool, maxDelay, maxLate)
  {
    hide TurnOf, Sound, Admissible;
    if j > 0 {
      RunKeeps(views, xs, logs, j - 1, pool, watches, maxDelay, maxLate);
      TurnKeeps(views[j - 1], xs[j - 1], logs[j - 1], views[j], pool, watches, maxDelay, maxLate);
    }
  }

  /** In no run, however long and however often the clock wraps, is a timer fired early, or more than `maxLate` late. */
  lemma RunFiresOnTime(views: seq<View>, xs: seq<Input>, logs: seq<Log>, i: nat,
                       pool: set<Node>, watches: set<R.Watch>, maxDelay: nat, maxLate: nat)
    requires Turns(views, xs, logs, maxLate) && AllAdmissible(xs, pool, watches, maxDelay, maxLate) && i < |xs|
    requires Sound(views[0], pool, maxDelay, maxLate)
    ensures forall k | 0 <= k < |logs[i].fired| ::
              views[i].time - maxLate <= logs[i].fired[k].deadline <= views[i].time
  {
    hide Admissible, T.Windowed, R.Inv, T.Fires, T.Queued, PollTurn;
    RunKeeps(views, xs, logs, i, pool, watches, maxDelay, maxLate);
    assert TurnOf(views[i], xs[i], logs[i], views[i + 1], maxLate);
    assert Admissible(xs[i], pool, watches, maxDelay, maxLate);
    AdmissibleParts(xs[i], pool, watches, maxDelay, maxLate);
    OneKind(views[i], xs[i], logs[i], views[i + 1]);
    if logs[i].fired != [] {
      FiredInPool(views[i].dl, views[i].time, xs[i].timerScript, logs[i].fired, pool, maxDelay, maxLate);
    }
  }

  /** No callback of the turn does anything about timer `n`. */
  ghost predicate Spared(x: Input, l: Log, n: Node) {
    && T.LeftAlone(x.timerScript, l.fired, n)
    && forall i | 0 <= i < |l.batch| && |l.batch| == |l.trace| <= |x.timerHandlers| :: EventLeaves(x, l, i, n)
  }

  /** A turn that spares a timer fires it if it is due, and otherwise keeps it. */
  lemma SparedTurn(a: View, x: Input, l: Log, b: View, n: Node, maxLate: nat)
    requires TurnOf(a, x, l, b, maxLate) && Spared(x, l, n)
    ensures n in b.dl <==> n in a.dl && a.dl[n] > a.time
    ensures n in b.dl ==> b.dl[n] == a.dl[n]
    ensures T.WasFired(l.fired, n) <==> n in a.dl && a.dl[n] <= a.time
  {
    hide T.Fires, T.Queued, T.Effects, T.LeftAlone, T.Nodes, R.Inv, R.FlushAll, E.Traced, Acted, Requeued;
    hide AllRan, E.ReadCall, E.WriteCall;
    if T.Expired(a.dl, a.time) != {} {
      T.Undisturbed(a.dl, a.time, x.timerScript, l.fired, n);
    } else {
      AllRanLength(l);
      forall i | 0 <= i < |l.batch| ensures EventSpares(x.timerHandlers[i], AllRan(l)[i], n) {
        assert EventLeaves(x, l, i, n);
      }
      RequeuedSpares(b.time, x.timerHandlers, AllRan(l), l.queues, 0, |l.batch|, n);
      assert n !in T.Expired(a.dl, a.time);
    }
  }

  /** Timer `n` with deadline `d` is fired in turn `i` and in no other of the first `j`, on time. */
  ghost predicate FiredIn(views: seq<View>, logs: seq<Log>, n: Node, d: int, j: nat, i: nat, maxLate: nat)
    requires i < j <= |logs| && j < |views|
  {
    && d <= views[i].time <= d + maxLate
    && (forall k | 0 <= k < i :: views[k].time < d)
    && forall k | 0 <= k < j :: T.WasFired(logs[k].fired, n) <==> k == i
  }

  /**
  A timer that callbacks leave alone waits with its deadline until the first turn that begins at or
  after it; in that turn it is fired, at most `maxLate` late, and never again.
  */
  lemma {:induction false} TimerFires(views: seq<View>, xs: seq<Input>, logs: seq<Log>, n: Node, j: nat,
                                      pool: set<Node>, watches: set<R.Watch>, maxDelay: nat, maxLate: nat)
    requires Turns(views, xs, logs, maxLate) && AllAdmissible(xs, pool, watches, maxDelay, maxLate) && j <= |xs|
    requires Sound(views[0], pool, maxDelay, maxLate) && n in views[0].dl
    requires forall i | 0 <= i < j :: Spared(xs[i], logs[i], n)
    ensures var d := views[0].dl[n];
            if n in views[j].dl then
              views[j].dl[n] == d && forall i | 0 <= i < j :: views[i].time < d && !T.WasFired(logs[i].fired, n)
            else
              exists i | 0 <= i < j :: FiredIn(views, logs, n, d, j, i, maxLate)
  {
    hide TurnOf, Spared, Sound, AllAdmissible, T.WasFired;
    if j > 0 {
      var k, d := j - 1, views[0].dl[n];
      TimerFires(views, xs, logs, n, k, pool, watches, maxDelay, maxLate);
      RunKeeps(views, xs, logs, k, pool, watches, maxDelay, maxLate);
      SparedTurn(views[k], xs[k], logs[k], views[j], n, maxLate);
      if n in views[k].dl {
        SoundAt(views[k], n, pool, maxDelay, maxLate);
        assert n !in views[j].dl ==> FiredIn(views, logs, n, d, j, k, maxLate);
      } else {
        var i :| 0 <= i < k && FiredIn(views, logs, n, d, k, i, maxLate);
        assert FiredIn(views, logs, n, d, j, i, maxLate);
      }
    }
  }

  lemma SoundAt(a: View, n: Node, pool: set<Node>, maxDelay: nat, maxLate: nat)
    requires Sound(a, pool, maxDelay, maxLate) && n in a.dl
    ensures a.time - maxLate <= a.dl[n] <= a.time + maxDelay
  {
  }

  /** In every dispatch of every run, each poller of the batch is allocated at every test. */
  lemma RunIsSafe(views: seq<View>, xs: seq<Input>, logs: seq<Log>, i: nat, k: nat, m: nat,
                  pool: set<Node>, watches: set<R.Watch>, maxDelay: nat, maxLate: nat)
    requires Turns(views, xs, logs, maxLate) && AllAdmissible(xs, pool, watches, maxDelay, maxLate) && i < |xs|
    requires Sound(views[0], pool, maxDelay, maxLate) && k < |logs[i].batch| && m < |logs[i].batch|
    ensures |logs[i].trace| == |logs[i].batch|
    ensures logs[i].batch[m].poller in logs[i].trace[k].before.polls
    ensures logs[i].batch[m].poller in logs[i].trace[k].mid.polls
  {
    hide Admissible, T.Windowed, R.Inv, TimerTurn, E.Traced, R.FlushAll, IsWait, Requeued;
    RunKeeps(views, xs, logs, i, pool, watches, maxDelay, maxLate);
    var a, l := views[i], logs[i];
    assert TurnOf(a, xs[i], l, views[i + 1], maxLate);
    OneKind(a, xs[i], l, views[i + 1]);
    R.FlushAllFlushes(a.s);
    E.BatchIsSafe(R.FlushAll(a.s), l.batch, xs[i].script, l.trace, views[i + 1].s, k);
    E.ReportedAllocated(R.FlushAll(a.s), xs[i].ready);
    assert l.batch[m] in l.batch;
  }

  /** The turn's callbacks begin to wait with idle watches only. */
  ghost predicate SinglyTurn(l: Log) {
    && E.SinglyTraced(l.trace)
    && forall k | 0 <= k < |l.ops| && k < |l.states| ::
         R.Inv(l.states[k]) && R.Runs(l.states[k], l.ops[k]) ==> R.Singly(l.states[k], l.ops[k])
  }

  ghost predicate AllArmed(s: R.State) {
    R.Armed(s) && R.Alone(s)
  }

  lemma TurnArmed(a: View, x: Input, l: Log, b: View, maxLate: nat)
    requires R.Inv(a.s) && AllArmed(a.s) && TurnOf(a, x, l, b, maxLate) && SinglyTurn(l)
    ensures AllArmed(b.s)
  {
    hide R.Inv, R.FlushAll, E.Traced, E.SinglyTraced, Acted, Requeued, AllArmed;
    hide T.Expired, T.Fires, T.Queued, IsWait;
    if T.Expired(a.dl, a.time) != {} {
      ActedArmed(x.timerActs, Called(l.fired), l, |l.fired|);
    } else {
      R.FlushAllFlushes(a.s);
      AllArmedIs(a.s);
      R.FlushArms(a.s);
      E.BatchArmed(R.FlushAll(a.s), l.batch, x.script, l.trace, b.s);
      AllArmedIs(b.s);
    }
  }

  lemma AllArmedIs(s: R.State)
    ensures AllArmed(s) <==> R.Armed(s) && R.Alone(s)
  {
  }

  lemma {:induction false} ActedArmed(acts: (nat, Node) -> seq<E.Action>, called: seq<Node>, l: Log, k: nat)
    requires Acted(acts, called, l.states, l.ops) && R.Inv(l.states[0]) && k <= |called|
    requires AllArmed(l.states[0]) && SinglyTurn(l)
    ensures AllArmed(l.states[k])
  {
    hide R.Inv, E.Performed, R.Armed, R.Alone, R.Singly, E.SinglyTraced, R.Runs;
    if k > 0 {
      var m := k - 1;
      ActedArmed(acts, called, l, m);
      ActedKeeps(acts, called, l.states, l.ops, m);
      assert E.Performed(l.states[m], acts(m, called[m]), l.ops[m], l.states[k]);
      E.PerformedDid(l.states[m], acts(m, called[m]), l.ops[m], l.states[k]);
      E.DidArmed(l.states[m], l.ops[m], l.states[k]);
    }
  }

  lemma {:induction false} RunArmed(views: seq<View>, xs: seq<Input>, logs: seq<Log>, j: nat,
                                    pool: set<Node>, watches: set<R.Watch>, maxDelay: nat, maxLate: nat)
    requires Turns(views, xs, logs, maxLate) && AllAdmissible(xs, pool, watches, maxDelay, maxLate) && j <= |xs|
    requires Sound(views[0], pool, maxDelay, maxLate) && AllArmed(views[0].s)
    requires forall i | 0 <= i < j :: SinglyTurn(logs[i])
    ensures AllArmed(views[j].s)
  {
    hide TurnOf, AllArmed, SinglyTurn, AllAdmissible;
    if j > 0 {
      RunArmed(views, xs, logs, j - 1, pool, watches, maxDelay, maxLate);
      RunKeeps(views, xs, logs, j - 1, pool, watches, maxDelay, maxLate);
      TurnArmed(views[j - 1], xs[j - 1], logs[j - 1], views[j], maxLate);
    }
  }

  /** In every dispatch of every run whose callbacks watch with idle watches only, each watch called has a callback. */
  lemma RunCallsHaveFn(views: seq<View>, xs: seq<Input>, logs: seq<Log>, i: nat, k: nat,
                       pool: set<Node>, watches: set<R.Watch>, maxDelay: nat, maxLate: nat)
    requires Turns(views, xs, logs, maxLate) && AllAdmissible(xs, pool, watches, maxDelay, maxLate) && i < |xs|
    requires Sound(views[0], pool, maxDelay, maxLate) && AllArmed(views[0].s) && k < |logs[i].batch|
    requires forall m | 0 <= m <= i :: SinglyTurn(logs[m])
    ensures |logs[i].trace| == |logs[i].batch|
    ensures var l := logs[i].trace[k];
            && (forall c | c in E.ReadCall(l.before, logs[i].batch[k]) ::
                  c.watch in l.before.watches && l.before.watches[c.watch].fn)
            && (forall c | c in E.WriteCall(l.mid, logs[i].batch[k]) ::
                  c.watch in l.mid.watches && l.mid.watches[c.watch].fn)
  {
    hide Admissible, T.Windowed, R.Inv, R.Armed, R.Alone, R.Singly, TimerTurn, E.Traced, E.SinglyTraced;
    hide R.FlushAll, IsWait, Requeued, E.ReadCall, E.WriteCall;
    RunKeeps(views, xs, logs, i, pool, watches, maxDelay, maxLate);
    RunArmed(views, xs, logs, i, pool, watches, maxDelay, maxLate);
    var a, l := views[i], logs[i];
    assert TurnOf(a, xs[i], l, views[i + 1], maxLate) && SinglyTurn(l);
    OneKind(a, xs[i], l, views[i + 1]);
    R.FlushAllFlushes(a.s);
    R.FlushArms(a.s);
    E.CallsHaveFn(R.FlushAll(a.s), l.batch, xs[i].script, l.trace, views[i + 1].s, k);
  }

  lemma OneKind(a: View, x: Input, l: Log, b: View)
    ensures TimerTurn(a, x, l, b) ==> l.batch == []
    ensures forall maxLate: nat :: PollTurn(a, x, l, b, maxLate) ==> l.fired == []
  {
  }

  // ---------- one turn ----------

  class Loop {
    const timers: T.EvLoop
    const polls: E.EventLoop

    constructor (timers: T.EvLoop, polls: E.EventLoop)
      ensures this.timers == timers && this.polls == polls
    {
      this.timers, this.polls := timers, polls;
    }

    ghost predicate Valid()
      reads timers, timers.timers, timers.timers.v, timers.timers.ix.Keys
      reads polls, polls.s.polls.Keys, polls.s.dirty, polls.s.watches.Keys
      reads polls.table, polls.table.flags, polls.table.keys, polls.table.vals
    {
      timers.Valid() && polls.Valid()
    }

    ghost function Look(): View
      reads timers, timers.timers, polls
    {
      View(timers.timers.dl, timers.time, polls.s)
    }

    lemma Opened()
      ensures Valid() <==> timers.Valid() && polls.Valid()
      ensures Look() == View(timers.timers.dl, timers.time, polls.s)
      ensures timers.Valid() ==> timers.timers.ix.Keys == timers.timers.dl.Keys
      ensures polls.Valid() ==> R.Inv(polls.s)
    {
      hide R.Inv, Spanned;
      timers.Opened();
      timers.timers.Opened();
      polls.Opened();
      if timers.Valid() {
        timers.timers.Members();
      }
    }

    /** `Epoll.EventLoop.Step`, which leaves the timers alone. */
    method StepPolls(ready: seq<E.Ready>, script: seq<E.Handlers>)
      returns (ran: seq<E.Ran>, calls: seq<E.Call>, ghost batch: seq<E.Event>, ghost trace: seq<E.Look>)
      requires Valid() && |ready| == |script| <= 16
      requires forall h | h in script :: h.Watches() <= polls.s.watches.Keys
      modifies polls, polls.s.polls.Keys, polls.s.watches.Keys
      modifies polls.table, polls.table.flags, polls.table.keys, polls.table.vals
      ensures Valid() && polls.s.watches.Keys == old(polls.s.watches.Keys)
      ensures forall p | p in polls.s.polls :: p in old(polls.s.polls) || fresh(p)
      ensures polls.table.flags == old(polls.table.flags) || fresh(polls.table.flags)
      ensures polls.table.keys == old(polls.table.keys) || fresh(polls.table.keys)
      ensures polls.table.vals == old(polls.table.vals) || fresh(polls.table.vals)
      ensures old(R.Inv(polls.s)) && batch == E.Reported(R.FlushAll(old(polls.s)).kernel, ready)
      ensures E.Traced(R.FlushAll(old(polls.s)), batch, script, trace, polls.s)
      ensures |trace| == |ran| == |batch| <= |ready| && calls == E.AllCalls(batch, trace)
      ensures forall k | 0 <= k < |ran| ::
                && (ran[k].read <==> E.ReadCall(trace[k].before, batch[k]) != [])
                && (ran[k].written <==> E.WriteCall(trace[k].mid, batch[k]) != [])
    {
      hide *;
      Opened();
      assert forall o: object | o in timers.timers.ix.Keys :: o is Node;
      assert forall o: object | o in polls.s.polls.Keys :: o is R.Poller;
      assert forall o: object | o in polls.s.watches.Keys :: o is R.Watch;
      ran, calls, batch, trace := polls.Step(ready, script);
      Opened();
    }

    /** The clock is read, `slept` later. */
    method MoveOn(slept: nat)
      requires Valid()
      requires forall n | n in timers.timers.dl :: timers.time + slept <= timers.timers.dl[n] + timers.maxLate
      modifies timers`now, timers`time
      ensures Valid() && timers.time == old(timers.time) + slept
    {
      hide *;
      Opened();
      timers.Opened();
      LaterWord(timers.time, slept);
      assert forall o: object | o in polls.s.polls.Keys || o in polls.s.dirty :: o is R.Poller;
      assert forall o: object | o in polls.s.watches.Keys :: o is R.Watch;
      timers.ReadClock(U32(timers.now + slept), timers.time + slept);
      Opened();
    }

    /** A callback's actions on timers, which leave the descriptors alone. */
    method CallTimers(acts: seq<T.Action>, ghost pool: set<Node>)
      requires Valid() && timers.timers.dl.Keys <= pool && T.Nodes(acts) <= pool
      requires T.InBounds(acts, timers.maxDelay, timers.maxLate)
      modifies timers.timers, timers.timers.v, pool
      ensures Valid() && timers.timers.dl.Keys <= pool
      ensures timers.timers.v == old(timers.timers.v) || fresh(timers.timers.v)
      ensures timers.timers.dl == T.Effects(old(timers.timers.dl), timers.time, acts)
    {
      hide *;
      Opened();
      assert forall o: object | o in pool :: o is Node;
      assert forall o: object | o in polls.s.polls.Keys || o in polls.s.dirty :: o is R.Poller;
      assert forall o: object | o in polls.s.watches.Keys :: o is R.Watch;
      timers.Callback(acts);
      Opened();
    }

    /** The actions on timers of the callbacks of one event. */
    method EventTimers(h: TimerHandlers, ran: E.Ran, ghost pool: set<Node>)
      requires Valid() && timers.timers.dl.Keys <= pool
      requires T.Nodes(h.reading) <= pool && T.InBounds(h.reading, timers.maxDelay, timers.maxLate)
      requires T.Nodes(h.writing) <= pool && T.InBounds(h.writing, timers.maxDelay, timers.maxLate)
      modifies timers.timers, timers.timers.v, pool
      ensures Valid() && timers.timers.dl.Keys <= pool
      ensures timers.timers.v == old(timers.timers.v) || fresh(timers.timers.v)
      ensures timers.timers.dl == AfterEvent(old(timers.timers.dl), timers.time, h, ran.read, ran.written)
    {
      hide *;
      AfterEventIs(timers.timers.dl, timers.time, h, ran.read, ran.written);
      if ran.read {
        CallTimers(h.reading, pool);
      }
      if ran.written {
        CallTimers(h.writing, pool);
      }
    }

    lemma AfterEventIs(dl: map<Node, int>, time: int, h: TimerHandlers, read: bool, written: bool)
      ensures var mid := if read then T.Effects(dl, time, h.reading) else dl;
              AfterEvent(dl, time, h, read, written) == if written then T.Effects(mid, time, h.writing) else mid
    {
      T.EffectsNone(dl, time);
      T.EffectsNone(if read then T.Effects(dl, time, h.reading) else dl, time);
    }

    /** The actions on timers of all callbacks that ran, event by event; `queues` are the queues in between. */
    method EventsTimers(hs: seq<TimerHandlers>, ran: seq<E.Ran>, ghost pool: set<Node>)
      returns (ghost queues: seq<map<Node, int>>)
      requires Valid() && timers.timers.dl.Keys <= pool && |ran| <= |hs|
      requires forall h | h in hs ::
                 && T.Nodes(h.reading) <= pool && T.InBounds(h.reading, timers.maxDelay, timers.maxLate)
                 && T.Nodes(h.writing) <= pool && T.InBounds(h.writing, timers.maxDelay, timers.maxLate)
      modifies timers.timers, timers.timers.v, pool
      ensures Valid() && timers.timers.dl.Keys <= pool
      ensures timers.timers.v == old(timers.timers.v) || fresh(timers.timers.v)
      ensures Requeued(timers.time, hs, ran, queues)
      ensures |queues| == |ran| + 1 && queues[0] == old(timers.timers.dl) && queues[|ran|] == timers.timers.dl
    {
      hide *;
      queues := [timers.timers.dl];
      RequeuedNone(timers.time, hs, queues);
      assert ran[..0] == [];
      var i := 0;
      while i < |ran|
        invariant 0 <= i <= |ran|
        invariant Valid() && timers.timers.dl.Keys <= pool
        invariant timers.timers.v == old(timers.timers.v) || fresh(timers.timers.v)
        invariant Requeued(timers.time, hs, ran[..i], queues)
        invariant |queues| == i + 1 && queues[0] == old(timers.timers.dl) && queues[i] == timers.timers.dl
      {
        assert hs[i] in hs;
        EventTimers(hs[i], ran[i], pool);
        RequeuedNext(timers.time, hs, ran, i, queues, timers.timers.dl);
        queues := queues + [timers.timers.dl];
        i := i + 1;
      }
      assert ran[..i] == ran;
    }

    lemma RequeuedNone(time: int, hs: seq<TimerHandlers>, queues: seq<map<Node, int>>)
      requires |queues| == 1
      ensures Requeued(time, hs, [], queues)
    {
    }

    lemma RequeuedNext(time: int, hs: seq<TimerHandlers>, ran: seq<E.Ran>, n: nat, queues: seq<map<Node, int>>,
                       dl: map<Node, int>)
      requires n < |ran| <= |hs| && Requeued(time, hs, ran[..n], queues)
      requires |queues| == n + 1 && dl == AfterEvent(queues[n], time, hs[n], ran[n].read, ran[n].written)
      ensures Requeued(time, hs, ran[..n + 1], queues + [dl])
    {
      hide AfterEvent;
      var queues', ran' := queues + [dl], ran[..n + 1];
      forall i | 0 <= i <= n
        ensures queues'[i + 1] == AfterEvent(queues'[i], time, hs[i], ran'[i].read, ran'[i].written)
      {
        if i < n {
          assert queues[i + 1] == AfterEvent(queues[i], time, hs[i], ran[..n][i].read, ran[..n][i].written);
        }
      }
    }

    /** The part of `evloop_step` after its timers, when none was due and the next is `wait` away. */
    method Poll(x: Input, wait: int, ghost pool: set<Node>) returns (ghost log: Log)
      requires Valid() && timers.timers.dl.Keys <= pool && IsWait(timers.timers.dl, timers.time, wait)
      requires Admissible(x, pool, polls.s.watches.Keys, timers.maxDelay, timers.maxLate)
      requires T.Expired(timers.timers.dl, timers.time) == {}
      modifies timers`now, timers`time, timers.timers, timers.timers.v, pool
      modifies polls, polls.s.polls.Keys, polls.s.watches.Keys
      modifies polls.table, polls.table.flags, polls.table.keys, polls.table.vals
      ensures Valid() && timers.timers.dl.Keys <= pool && polls.s.watches.Keys == old(polls.s.watches.Keys)
      ensures timers.timers.v == old(timers.timers.v) || fresh(timers.timers.v)
      ensures forall p | p in polls.s.polls :: p in old(polls.s.polls) || fresh(p)
      ensures polls.table.flags == old(polls.table.flags) || fresh(polls.table.flags)
      ensures polls.table.keys == old(polls.table.keys) || fresh(polls.table.keys)
      ensures polls.table.vals == old(polls.table.vals) || fresh(polls.table.vals)
      ensures PollTurn(old(Look()), x, log, Look(), timers.maxLate)
    {
      hide *;
      Opened();
      timers.Opened();
      ghost var a := Look();
      AdmissibleParts(x, pool, polls.s.watches.Keys, timers.maxDelay, timers.maxLate);
      SleptIsTimely(timers.timers.dl, timers.time, wait, x.elapsed, timers.maxDelay, timers.maxLate);
      var ran, calls;
      ghost var batch, trace;
      ran, calls, batch, trace := StepPolls(x.ready, x.script);
      MoveOn(Slept(wait, x.elapsed, timers.maxLate));
      ghost var queues := EventsTimers(x.timerHandlers, ran, pool);
      Opened();
      log := Log([], [], [], batch, trace, calls, queues);
      IsPollTurn(a, x, log, Look(), wait, ran, timers.maxLate);
    }

    /** `ev_step_timers`, and the actions of the timers' callbacks on descriptors. */
    method FireTimers(x: Input, ghost pool: set<Node>) returns (wait: int, ghost log: Log)
      requires Valid() && timers.timers.dl.Keys <= pool
      requires Admissible(x, pool, polls.s.watches.Keys, timers.maxDelay, timers.maxLate)
      modifies timers.timers, timers.timers.v, pool
      modifies polls, polls.s.polls.Keys, polls.s.watches.Keys
      modifies polls.table, polls.table.flags, polls.table.keys, polls.table.vals
      ensures Valid() && timers.timers.dl.Keys <= pool && polls.s.watches.Keys == old(polls.s.watches.Keys)
      ensures timers.timers.v == old(timers.timers.v) || fresh(timers.timers.v)
      ensures forall p | p in polls.s.polls :: p in old(polls.s.polls) || fresh(p)
      ensures polls.table.flags == old(polls.table.flags) || fresh(polls.table.flags)
      ensures polls.table.keys == old(polls.table.keys) || fresh(polls.table.keys)
      ensures polls.table.vals == old(polls.table.vals) || fresh(polls.table.vals)
      ensures wait == 0 <==> T.Expired(old(timers.timers.dl), timers.time) != {}
      ensures wait == 0 ==> TimerTurn(old(Look()), x, log, Look())
      ensures wait != 0 ==> Look() == old(Look()) && IsWait(timers.timers.dl, timers.time, wait)
    {
      hide *;
      Opened();
      timers.Opened();
      ghost var a := Look();
      AdmissibleParts(x, pool, polls.s.watches.Keys, timers.maxDelay, timers.maxLate);
      var called;
      ghost var fired;
      wait, called, fired := StepTimers(x, pool);
      Opened();
      log := Log(fired, [], [], [], [], [], []);
      T.FiresNone(a.dl, a.time, x.timerScript);
      if wait != 0 {
        IsWaitFor(timers.timers.dl, timers.time, wait);
      } else {
        FiredInPool(a.dl, a.time, x.timerScript, fired, pool, timers.maxDelay, timers.maxLate);
        ghost var states, ops := CallAllPolls(x.timerActs, called);
        Opened();
        log := log.(states := states, ops := ops);
        IsTimerTurn(a, x, log, Look(), called);
      }
    }

    /** `Timers.EvLoop.StepTimers`, which leaves the descriptors alone. */
    method StepTimers(x: Input, ghost pool: set<Node>)
      returns (wait: int, called: seq<Node>, ghost fired: seq<T.Firing>)
      requires Valid() && timers.timers.dl.Keys <= pool
      requires Admissible(x, pool, polls.s.watches.Keys, timers.maxDelay, timers.maxLate)
      modifies timers.timers, timers.timers.v, pool
      ensures Valid() && timers.timers.dl.Keys <= pool
      ensures timers.timers.v == old(timers.timers.v) || fresh(timers.timers.v)
      ensures wait == -1 <==> old(timers.timers.dl) == map[]
      ensures wait == 0 <==> T.Expired(old(timers.timers.dl), timers.time) != {}
      ensures wait > 0 ==> exists n :: T.Earliest(timers.timers.dl, n) && wait == timers.timers.dl[n] - timers.time
      ensures wait >= -1 && (wait == 0 <==> fired != [])
      ensures |called| == |fired| && forall k | 0 <= k < |fired| :: called[k] == fired[k].node
      ensures T.Fires(old(timers.timers.dl), timers.time, x.timerScript, fired)
      ensures timers.timers.dl == T.Queued(old(timers.timers.dl), timers.time, x.timerScript, fired)
      ensures T.Expired(timers.timers.dl, timers.time) == {}
    {
      hide *;
      Opened();
      AdmissibleParts(x, pool, polls.s.watches.Keys, timers.maxDelay, timers.maxLate);
      IsUsable(x.timerScript, timers.timers.dl.Keys, pool);
      assert forall o: object | o in pool :: o is Node;
      assert forall o: object | o in polls.s.polls.Keys || o in polls.s.dirty :: o is R.Poller;
      assert forall o: object | o in polls.s.watches.Keys :: o is R.Watch;
      wait, called, fired := timers.StepTimers(x.timerScript, x.limit, pool);
      Opened();
    }

    lemma IsUsable(script: T.Script, nodes: set<Node>, pool: set<Node>)
      requires nodes <= pool
      requires forall i: nat, n | n in pool ::
                 T.Nodes(script(i, n)) <= pool && T.InBounds(script(i, n), timers.maxDelay, timers.maxLate)
      ensures timers.Usable(script, nodes, pool)
    {
    }

    /** `Epoll.EventLoop.Callback`, which leaves the timers alone. */
    method CallPolls(acts: seq<E.Action>) returns (ghost ops: seq<R.Op>)
      requires Valid() && forall a | a in acts :: a.Watches() <= polls.s.watches.Keys
      modifies polls, polls.s.polls.Keys, polls.s.watches.Keys
      modifies polls.table, polls.table.flags, polls.table.keys, polls.table.vals
      ensures Valid() && polls.s.watches.Keys == old(polls.s.watches.Keys)
      ensures forall p | p in polls.s.polls :: p in old(polls.s.polls) || fresh(p)
      ensures polls.table.flags == old(polls.table.flags) || fresh(polls.table.flags)
      ensures polls.table.keys == old(polls.table.keys) || fresh(polls.table.keys)
      ensures polls.table.vals == old(polls.table.vals) || fresh(polls.table.vals)
      ensures E.Performed(old(polls.s), acts, ops, polls.s)
    {
      hide *;
      Opened();
      assert forall o: object | o in timers.timers.ix.Keys :: o is Node;
      assert forall o: object | o in polls.s.polls.Keys :: o is R.Poller;
      assert forall o: object | o in polls.s.watches.Keys :: o is R.Watch;
      ops := polls.Callback(acts);
      Opened();
    }

    /** The actions on descriptors of the timers `called`, one callback after the other. */
    method CallAllPolls(acts: (nat, Node) -> seq<E.Action>, called: seq<Node>)
      returns (ghost states: seq<R.State>, ghost ops: seq<seq<R.Op>>)
      requires Valid()
      requires forall k, a | 0 <= k < |called| && a in acts(k, called[k]) :: a.Watches() <= polls.s.watches.Keys
      modifies polls, polls.s.polls.Keys, polls.s.watches.Keys
      modifies polls.table, polls.table.flags, polls.table.keys, polls.table.vals
      ensures Valid() && polls.s.watches.Keys == old(polls.s.watches.Keys)
      ensures forall p | p in polls.s.polls :: p in old(polls.s.polls) || fresh(p)
      ensures polls.table.flags == old(polls.table.flags) || fresh(polls.table.flags)
      ensures polls.table.keys == old(polls.table.keys) || fresh(polls.table.keys)
      ensures polls.table.vals == old(polls.table.vals) || fresh(polls.table.vals)
      ensures Acted(acts, called, states, ops)
      ensures |states| == |called| + 1 && states[0] == old(polls.s) && states[|called|] == polls.s
    {
      hide *;
      states, ops := [polls.s], [];
      ActedNone(acts, states);
      assert called[..0] == [];
      ghost var watches := polls.s.watches.Keys;
      var k := 0;
      while k < |called|
        invariant 0 <= k <= |called|
        invariant Valid() && polls.s.watches.Keys == watches
        invariant forall p | p in polls.s.polls :: p in old(polls.s.polls) || fresh(p)
        invariant polls.table.flags == old(polls.table.flags) || fresh(polls.table.flags)
        invariant polls.table.keys == old(polls.table.keys) || fresh(polls.table.keys)
        invariant polls.table.vals == old(polls.table.vals) || fresh(polls.table.vals)
        invariant Acted(acts, called[..k], states, ops)
        invariant |states| == k + 1 && states[0] == old(polls.s) && states[k] == polls.s
      {
        ghost var more := CallPolls(acts(k, called[k]));
        ActedNext(acts, called, k, states, ops, more, polls.s);
        states, ops := states + [polls.s], ops + [more];
        k := k + 1;
      }
      assert called[..k] == called;
    }

    lemma ActedNone(acts: (nat, Node) -> seq<E.Action>, states: seq<R.State>)
      requires |states| == 1
      ensures Acted(acts, [], states, [])
    {
    }

    lemma ActedNext(acts: (nat, Node) -> seq<E.Action>, called: seq<Node>, n: nat, states: seq<R.State>,
                    ops: seq<seq<R.Op>>, more: seq<R.Op>, t: R.State)
      requires n < |called| && Acted(acts, called[..n], states, ops) && |states| == n + 1
      requires E.Performed(states[n], acts(n, called[n]), more, t)
      ensures Acted(acts, called[..n + 1], states + [t], ops + [more])
    {
      hide E.Performed;
      var states', ops', called' := states + [t], ops + [more], called[..n + 1];
      forall k | 0 <= k <= n ensures E.Performed(states'[k], acts(k, called'[k]), ops'[k], states'[k + 1]) {
        if k < n {
          assert E.Performed(states[k], acts(k, called[..n][k]), ops[k], states[k + 1]);
        }
      }
    }

    /** `evloop_step`, with callbacks that use timers of `pool`. */
    method Step(x: Input, ghost pool: set<Node>) returns (ghost log: Log)
      requires Valid() && timers.timers.dl.Keys <= pool
      requires Admissible(x, pool, polls.s.watches.Keys, timers.maxDelay, timers.maxLate)
      modifies timers`now, timers`time, timers.timers, timers.timers.v, pool
      modifies polls, polls.s.polls.Keys, polls.s.watches.Keys
      modifies polls.table, polls.table.flags, polls.table.keys, polls.table.vals
      ensures Valid() && timers.timers.dl.Keys <= pool && polls.s.watches.Keys == old(polls.s.watches.Keys)
      ensures timers.timers.v == old(timers.timers.v) || fresh(timers.timers.v)
      ensures forall p | p in polls.s.polls :: p in old(polls.s.polls) || fresh(p)
      ensures polls.table.flags == old(polls.table.flags) || fresh(polls.table.flags)
      ensures polls.table.keys == old(polls.table.keys) || fresh(polls.table.keys)
      ensures polls.table.vals == old(polls.table.vals) || fresh(polls.table.vals)
      ensures TurnOf(old(Look()), x, log, Look(), timers.maxLate)
    {
      hide *;
      Opened();
      ghost var a := Look();
      var wait;
      wait, log := FireTimers(x, pool);
      Opened();
      if wait != 0 {
        log := Poll(x, wait, pool);
      }
      IsTurn(a, x, log, Look(), timers.maxLate);
    }

    /** Any number of turns, one after the other. */
    method Run(xs: seq<Input>, ghost pool: set<Node>) returns (ghost views: seq<View>, ghost logs: seq<Log>)
      requires Valid() && timers.timers.dl.Keys <= pool
      requires forall i | 0 <= i < |xs| ::
                 Admissible(xs[i], pool, polls.s.watches.Keys, timers.maxDelay, timers.maxLate)
      modifies timers`now, timers`time, timers.timers, timers.timers.v, pool
      modifies polls, polls.s.polls.Keys, polls.s.watches.Keys
      modifies polls.table, polls.table.flags, polls.table.keys, polls.table.vals
      ensures Valid() && timers.timers.dl.Keys <= pool
      ensures Turns(views, xs, logs, timers.maxLate) && views[0] == old(Look()) && views[|xs|] == Look()
    {
      hide *;
      views, logs := [Look()], [];
      TurnsNone(Look(), timers.maxLate);
      assert xs[..0] == [];
      ghost var watches := polls.s.watches.Keys;
      var i := 0;
      while i < |xs|
        invariant 0 <= i <= |xs|
        invariant Valid() && timers.timers.dl.Keys <= pool && polls.s.watches.Keys == watches
        invariant timers.timers.v == old(timers.timers.v) || fresh(timers.timers.v)
        invariant forall p | p in polls.s.polls :: p in old(polls.s.polls) || fresh(p)
        invariant polls.table.flags == old(polls.table.flags) || fresh(polls.table.flags)
        invariant polls.table.keys == old(polls.table.keys) || fresh(polls.table.keys)
        invariant polls.table.vals == old(polls.table.vals) || fresh(polls.table.vals)
        invariant Turns(views, xs[..i], logs, timers.maxLate)
        invariant |views| == i + 1 && views[0] == old(Look()) && views[i] == Look()
      {
        ghost var log := Step(xs[i], pool);
        TurnsNext(views, xs, i, logs, Look(), log, timers.maxLate);
        views, logs := views + [Look()], logs + [log];
        i := i + 1;
      }
      assert xs[..i] == xs;
    }
  }
}
