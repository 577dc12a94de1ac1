/**
The timer half of the event loop (`evloop.c`): alarms on a 32-bit millisecond clock that wraps.

`time` is the true, unbounded clock of which `now` holds the low 32 bits.  With delays of at
most `maxDelay` and polls that return at most `maxLate` past the earliest deadline, every
queued deadline stays in `[time - maxLate, time + maxDelay]` (`EvLoop.Valid`), however often
the 32-bit clock wraps.
*/
module Timers {
  import opened Probe
  import opened HeapOrder
  import opened Heap

  /** The deadlines a loop at `time` may have queued. */
  ghost predicate Windowed(dl: map<Node, int>, time: int, maxDelay: nat, maxLate: nat) {
    forall n | n in dl :: time - maxLate <= dl[n] <= time + maxDelay
  }

  lemma WindowSpans(dl: map<Node, int>, time: int, maxDelay: nat, maxLate: nat)
    requires Windowed(dl, time, maxDelay, maxLate) && maxDelay + maxLate < TWO31
    ensures Spanned(dl)
  {
  }

  /** Inside the window every 32-bit comparison the loop makes agrees with true time. */
  lemma WindowIsExact(dl: map<Node, int>, time: int, maxDelay: nat, maxLate: nat)
    requires Windowed(dl, time, maxDelay, maxLate) && maxDelay + maxLate < TWO31
    ensures forall a, b | a in dl && b in dl :: Less32(U32(dl[a]), U32(dl[b])) <==> dl[a] < dl[b]
    ensures forall n | n in dl :: Diff32(U32(dl[n]), U32(time)) == dl[n] - time
  {
    forall a, b | a in dl && b in dl ensures Less32(U32(dl[a]), U32(dl[b])) <==> dl[a] < dl[b] {
      Exact(dl[a], dl[b]);
    }
    forall n | n in dl ensures Diff32(U32(dl[n]), U32(time)) == dl[n] - time {
      WaitIsExact(dl[n], time, maxDelay, maxLate);
    }
  }

  /** The queue and the clock at one moment. */
  datatype Moment = Moment(dl: map<Node, int>, time: int)

  /** A timer is armed `delay` ahead, a timer leaves the queue, or the clock moves on. */
  datatype Change = Armed(node: Node, delay: int) | Gone(node: Node) | Ticked(time: int)

  /** Delays are at most `maxDelay`, and the clock is read at most `maxLate` past the earliest deadline. */
  ghost predicate Permitted(a: Moment, c: Change, maxDelay: nat, maxLate: nat) {
    match c
    case Armed(_, delay) => 0 <= delay + maxLate && delay <= maxDelay
    case Gone(_) => true
    case Ticked(time) => a.time <= time && forall n | n in a.dl :: time <= a.dl[n] + maxLate
  }

  function Changed(a: Moment, c: Change): Moment {
    match c
    case Armed(n, delay) => a.(dl := a.dl[n := a.time + delay])
    case Gone(n) => a.(dl := a.dl - {n})
    case Ticked(time) => a.(time := time)
  }

  ghost predicate TimerRun(a: Moment, run: seq<Change>, maxDelay: nat, maxLate: nat)
    decreases |run|
  {
    run == [] || (Permitted(a, run[0], maxDelay, maxLate) && TimerRun(Changed(a, run[0]), run[1..], maxDelay, maxLate))
  }

  function Finally(a: Moment, run: seq<Change>): Moment
    decreases |run|
  {
    if run == [] then a else Finally(Changed(a, run[0]), run[1..])
  }

  /** However often the 32-bit clock wraps along a run, its comparisons stay exact. */
  lemma {:induction false} RunStaysExact(a: Moment, run: seq<Change>, maxDelay: nat, maxLate: nat)
    requires Windowed(a.dl, a.time, maxDelay, maxLate) && maxDelay + maxLate < TWO31
    requires TimerRun(a, run, maxDelay, maxLate)
    ensures var z := Finally(a, run);
            && Windowed(z.dl, z.time, maxDelay, maxLate)
            && (forall a, b | a in z.dl && b in z.dl :: Less32(U32(z.dl[a]), U32(z.dl[b])) <==> z.dl[a] < z.dl[b])
            && (forall n | n in z.dl :: Diff32(U32(z.dl[n]), U32(z.time)) == z.dl[n] - z.time)
    decreases |run|
  {
    hide Less32, Diff32;
    if run == [] {
      WindowIsExact(a.dl, a.time, maxDelay, maxLate);
    } else {
      RunStaysExact(Changed(a, run[0]), run[1..], maxDelay, maxLate);
    }
  }

  /** The wait until deadline `d`, which `next_timeout` computes in wrapped arithmetic. */
  lemma WaitIsExact(d: int, time: int, maxDelay: nat, maxLate: nat)
    requires time - maxLate <= d <= time + maxDelay && maxDelay + maxLate < TWO31
    ensures Diff32(U32(d), U32(time)) == d - time
  {
    Exact(d, time);
  }

  ghost function Expired(dl: map<Node, int>, time: int): set<Node> {
    set n | n in dl && dl[n] <= time
  }

  ghost predicate Earliest(dl: map<Node, int>, n: Node) {
    n in dl && forall o | o in dl :: dl[n] <= dl[o]
  }

  // ---------- what callbacks do ----------

  /** What a callback can do to timers: arm one `delay` ahead, at once or even in the past, or stop one. */
  datatype Action = Arm(node: Node, delay: int) | Cancel(node: Node)

  /**
  What an action does to the queue.  A timer must not be armed while it is queued; a callback that
  finds it queued leaves it as it is.
  */
  function Effect(dl: map<Node, int>, time: int, a: Action): map<Node, int> {
    match a
    case Arm(n, delay) => if n in dl then dl else dl[n := time + delay]
    case Cancel(n) => dl - {n}
  }

  function Effects(dl: map<Node, int>, time: int, acts: seq<Action>): map<Node, int> {
    if acts == [] then dl else Effect(Effects(dl, time, acts[..|acts| - 1]), time, acts[|acts| - 1])
  }

  function Nodes(acts: seq<Action>): set<Node> {
    set a | a in acts :: a.node
  }

  function Cancels(acts: seq<Action>): set<Node> {
    set a | a in acts && a.Cancel? :: a.node
  }

  /** The delays a callback asks for keep within what the clock can tell apart. */
  ghost predicate InBounds(acts: seq<Action>, maxDelay: nat, maxLate: nat) {
    forall a | a in acts && a.Arm? :: 0 <= a.delay + maxLate && a.delay <= maxDelay
  }

  /** Timers are armed for strictly later only. */
  ghost predicate Ahead(acts: seq<Action>) {
    forall a | a in acts && a.Arm? :: a.delay > 0
  }

  lemma EffectsNext(dl: map<Node, int>, time: int, acts: seq<Action>, i: nat)
    requires i < |acts|
    ensures acts[i].node in Nodes(acts)
    ensures Effects(dl, time, acts[..i + 1]) == Effect(Effects(dl, time, acts[..i]), time, acts[i])
  {
    assert acts[..i + 1][..i] == acts[..i];
  }

  lemma EffectsNone(dl: map<Node, int>, time: int)
    ensures Effects(dl, time, []) == dl
  {
  }

  /** A timer no action is about keeps its deadline, or stays out of the queue. */
  lemma {:induction false} EffectsSpare(dl: map<Node, int>, time: int, acts: seq<Action>, n: Node)
    requires n !in Nodes(acts)
    ensures n in Effects(dl, time, acts) <==> n in dl
    ensures n in dl ==> Effects(dl, time, acts)[n] == dl[n]
  {
    if acts != [] {
      EffectsSpare(dl, time, acts[..|acts| - 1], n);
    }
  }

  lemma {:induction false} EffectsSplit(dl: map<Node, int>, time: int, a: seq<Action>, b: seq<Action>)
    ensures Effects(dl, time, a + b) == Effects(Effects(dl, time, a), time, b)
  {
    if b == [] {
      assert a + b == a;
    } else {
      assert (a + b)[..|a + b| - 1] == a + b[..|b| - 1];
      EffectsSplit(dl, time, a, b[..|b| - 1]);
    }
  }

  /** The last action about a timer decides. */
  lemma LastDecides(dl: map<Node, int>, time: int, acts: seq<Action>, i: nat)
    requires i < |acts| && acts[i].node !in Nodes(acts[i + 1..])
    ensures var n, after := acts[i].node, Effects(dl, time, acts);
            match acts[i]
            case Cancel(_) => n !in after
            case Arm(_, delay) =>
              (n !in dl && n !in Nodes(acts[..i])) || (i > 0 && acts[i - 1] == Cancel(n)) ==>
                n in after && after[n] == time + delay
  {
    var n := acts[i].node;
    assert acts == acts[..i + 1] + acts[i + 1..];
    EffectsSplit(dl, time, acts[..i + 1], acts[i + 1..]);
    EffectsSpare(Effects(dl, time, acts[..i + 1]), time, acts[i + 1..], n);
    EffectsNext(dl, time, acts, i);
    if n !in Nodes(acts[..i]) {
      EffectsSpare(dl, time, acts[..i], n);
    }
    if i > 0 {
      EffectsNext(dl, time, acts, i - 1);
    }
  }

  /** Actions within bounds keep the window, and queue no other timers than they are about. */
  lemma {:induction false} EffectsWindowed(dl: map<Node, int>, time: int, acts: seq<Action>,
                                           maxDelay: nat, maxLate: nat)
    requires Windowed(dl, time, maxDelay, maxLate) && InBounds(acts, maxDelay, maxLate)
    ensures Windowed(Effects(dl, time, acts), time, maxDelay, maxLate)
    ensures Effects(dl, time, acts).Keys <= dl.Keys + Nodes(acts)
  {
    if acts != [] {
      var rest, a := acts[..|acts| - 1], acts[|acts| - 1];
      assert acts == rest + [a];
      EffectsWindowed(dl, time, rest, maxDelay, maxLate);
      assert a in acts && Nodes(rest) <= Nodes(acts) && a.node in Nodes(acts);
    }
  }

  /**
  The due timers of a queue are those of another that is `before` it, but for the timers of
  `stopped`.
  */
  ghost predicate Meddled(before: map<Node, int>, after: map<Node, int>, time: int, stopped: set<Node>) {
    && (forall n | n in after && after[n] <= time :: n in before && before[n] == after[n])
    && (forall n | n in before && before[n] <= time && n !in stopped :: n in after && after[n] == before[n])
  }

  /** Arming strictly ahead makes no timer due, and only a stop makes a due timer leave. */
  lemma {:induction false} EffectsMeddle(dl: map<Node, int>, time: int, acts: seq<Action>)
    requires Ahead(acts)
    ensures Meddled(dl, Effects(dl, time, acts), time, Cancels(acts))
  {
    if acts != [] {
      var rest, a := acts[..|acts| - 1], acts[|acts| - 1];
      assert acts == rest + [a];
      EffectsMeddle(dl, time, rest);
      assert Cancels(rest) <= Cancels(acts);
      assert a.Cancel? ==> a.node in Cancels(acts);
    }
  }

  // ---------- the firing loop on values ----------

  /** What the callbacks do: `script(i, n)` is done by the `i`-th call, if timer `n` is the one called. */
  type Script = (nat, Node) -> seq<Action>

  /** A call of a timer's callback: the timer and its deadline. */
  datatype Firing = Firing(node: Node, deadline: int)

  /** The queue after the calls `fired`. */
  function Queued(dl0: map<Node, int>, time: int, script: Script, fired: seq<Firing>): map<Node, int> {
    if fired == [] then dl0
    else
      var k := |fired| - 1;
      Effects(Queued(dl0, time, script, fired[..k]) - {fired[k].node}, time, script(k, fired[k].node))
  }

  /** The next call is of a due timer with the least deadline. */
  ghost predicate FiresNow(dl: map<Node, int>, time: int, f: Firing) {
    Earliest(dl, f.node) && dl[f.node] == f.deadline && f.deadline <= time
  }

  /** `fired` are calls the firing loop makes, one after the other, on a queue that was `dl0`. */
  ghost predicate Fires(dl0: map<Node, int>, time: int, script: Script, fired: seq<Firing>) {
    forall i | 0 <= i < |fired| :: FiresNow(Queued(dl0, time, script, fired[..i]), time, fired[i])
  }

  lemma FiresIs(dl: map<Node, int>, time: int, f: Firing)
    ensures Earliest(dl, f.node) && dl[f.node] == f.deadline && f.deadline <= time ==> FiresNow(dl, time, f)
  {
  }

  lemma FiresNone(dl: map<Node, int>, time: int, script: Script)
    ensures Fires(dl, time, script, []) && Queued(dl, time, script, []) == dl
  {
  }

  lemma FiresOn(dl0: map<Node, int>, time: int, script: Script, fired: seq<Firing>, f: Firing)
    requires Fires(dl0, time, script, fired) && FiresNow(Queued(dl0, time, script, fired), time, f)
    ensures Fires(dl0, time, script, fired + [f])
    ensures Queued(dl0, time, script, fired + [f])
            == Effects(Queued(dl0, time, script, fired) - {f.node}, time, script(|fired|, f.node))
  {
    hide FiresNow;
    var more := fired + [f];
    assert more[..|fired|] == fired;
    forall i | 0 <= i < |more| ensures FiresNow(Queued(dl0, time, script, more[..i]), time, more[i]) {
      assert i < |fired| ==> more[..i] == fired[..i];
    }
  }

  lemma FiresBefore(dl0: map<Node, int>, time: int, script: Script, fired: seq<Firing>, k: nat)
    requires Fires(dl0, time, script, fired) && k < |fired|
    ensures Fires(dl0, time, script, fired[..k])
    ensures FiresNow(Queued(dl0, time, script, fired[..k]), time, fired[k])
  {
    hide FiresNow;
    forall i | 0 <= i < k ensures FiresNow(Queued(dl0, time, script, fired[..k][..i]), time, fired[..k][i]) {
      assert fired[..k][..i] == fired[..i];
    }
  }

  ghost predicate WasFired(fired: seq<Firing>, n: Node) {
    exists i :: 0 <= i < |fired| && fired[i].node == n
  }

  lemma WasFiredNext(fired: seq<Firing>, n: Node)
    requires fired != []
    ensures WasFired(fired, n) <==> WasFired(fired[..|fired| - 1], n) || fired[|fired| - 1].node == n
  {
    var k := |fired| - 1;
    if WasFired(fired[..k], n) {
      var i :| 0 <= i < k && fired[..k][i].node == n;
      assert fired[i].node == n;
    }
    if WasFired(fired, n) && fired[k].node != n {
      var i :| 0 <= i < |fired| && fired[i].node == n;
      assert fired[..k][i].node == n;
    }
  }

  /** No callback of the calls `fired` does anything about timer `n`. */
  ghost predicate LeftAlone(script: Script, fired: seq<Firing>, n: Node) {
    forall i | 0 <= i < |fired| :: n !in Nodes(script(i, fired[i].node))
  }

  /** A timer that no callback touches leaves the queue by being fired when it is due, and not otherwise. */
  lemma {:induction false} Undisturbed(dl0: map<Node, int>, time: int, script: Script, fired: seq<Firing>, n: Node)
    requires Fires(dl0, time, script, fired) && LeftAlone(script, fired, n)
    ensures var dl := Queued(dl0, time, script, fired);
            && (n in dl <==> n in dl0 && !WasFired(fired, n))
            && (n in dl ==> dl[n] == dl0[n])
            && (WasFired(fired, n) ==> n in dl0 && dl0[n] <= time)
            && (Expired(dl, time) == {} ==> (n in dl <==> n in dl0 && dl0[n] > time))
  {
    var dl := Queued(dl0, time, script, fired);
    if fired != [] {
      var k := |fired| - 1;
      FiresBefore(dl0, time, script, fired, k);
      Undisturbed(dl0, time, script, fired[..k], n);
      WasFiredNext(fired, n);
      EffectsSpare(Queued(dl0, time, script, fired[..k]) - {fired[k].node}, time, script(k, fired[k].node), n);
    }
    assert n in dl && dl[n] <= time ==> n in Expired(dl, time);
  }

  /** A timer left alone from the `k`-th call on stays out of the queue, or waits in it if it is not due. */
  lemma {:induction false} QueuedSince(dl0: map<Node, int>, time: int, script: Script, fired: seq<Firing>,
                                       k: nat, n: Node)
    requires Fires(dl0, time, script, fired) && k <= |fired|
    requires forall i | k <= i < |fired| :: n !in Nodes(script(i, fired[i].node))
    ensures var before, after := Queued(dl0, time, script, fired[..k]), Queued(dl0, time, script, fired);
            && (n !in before ==> n !in after)
            && (n in before && before[n] > time ==> n in after && after[n] == before[n])
    decreases |fired|
  {
    hide Effects, FiresNow, Nodes, Fires;
    if k == |fired| {
      assert fired[..k] == fired;
    } else {
      var m := |fired| - 1;
      FiresBefore(dl0, time, script, fired, m);
      QueuedSince(dl0, time, script, fired[..m], k, n);
      assert fired[..m][..k] == fired[..k];
      QueuedOnce(Queued(dl0, time, script, fired[..m]), time, fired[m], script(m, fired[m].node), n);
    }
  }

  lemma QueuedOnce(dl: map<Node, int>, time: int, f: Firing, acts: seq<Action>, n: Node)
    requires FiresNow(dl, time, f) && n !in Nodes(acts)
    ensures var after := Effects(dl - {f.node}, time, acts);
            && (n !in dl ==> n !in after)
            && (n in dl && dl[n] > time ==> n in after && after[n] == dl[n])
  {
    hide Effects, Nodes;
    EffectsSpare(dl - {f.node}, time, acts, n);
  }

  lemma FiredWasDue(dl: map<Node, int>, time: int, f: Firing)
    requires FiresNow(dl, time, f)
    ensures f.node in dl && dl[f.node] <= time
  {
  }

  /**
  What the callback of call `k` does last about a timer holds in the end, if later callbacks leave
  the timer alone: a stopped timer is gone, and one armed ahead, having fired or been stopped just
  before, waits for its deadline.
  */
  lemma CallbackDecides(dl0: map<Node, int>, time: int, script: Script, fired: seq<Firing>, k: nat, i: nat)
    requires Fires(dl0, time, script, fired) && k < |fired| && i < |script(k, fired[k].node)|
    requires var acts := script(k, fired[k].node);
             && acts[i].node !in Nodes(acts[i + 1..])
             && forall j | k < j < |fired| :: acts[i].node !in Nodes(script(j, fired[j].node))
    ensures var acts, after := script(k, fired[k].node), Queued(dl0, time, script, fired);
            match acts[i]
            case Cancel(n) => n !in after
            case Arm(n, delay) =>
              delay > 0 && ((n == fired[k].node && n !in Nodes(acts[..i])) || (i > 0 && acts[i - 1] == Cancel(n))) ==>
                n in after && after[n] == time + delay
  {
    hide Effects;
    var acts := script(k, fired[k].node);
    assert fired[..k + 1][..k] == fired[..k];
    QueuedSince(dl0, time, script, fired, k + 1, acts[i].node);
    LastDecides(Queued(dl0, time, script, fired[..k]) - {fired[k].node}, time, acts, i);
  }

  /** Whatever is fired, callbacks within bounds keep the window, and queue timers of `pool` only. */
  lemma {:induction false} QueuedWindowed(dl0: map<Node, int>, time: int, script: Script, fired: seq<Firing>,
                                          pool: set<Node>, maxDelay: nat, maxLate: nat)
    requires Fires(dl0, time, script, fired) && Windowed(dl0, time, maxDelay, maxLate) && dl0.Keys <= pool
    requires forall i: nat, n | n in pool :: Nodes(script(i, n)) <= pool && InBounds(script(i, n), maxDelay, maxLate)
    ensures Windowed(Queued(dl0, time, script, fired), time, maxDelay, maxLate)
    ensures Queued(dl0, time, script, fired).Keys <= pool
  {
    hide InBounds, Effects, Nodes;
    if fired != [] {
      var k := |fired| - 1;
      FiresBefore(dl0, time, script, fired, k);
      QueuedWindowed(dl0, time, script, fired[..k], pool, maxDelay, maxLate);
      var dl := Queued(dl0, time, script, fired[..k]) - {fired[k].node};
      EffectsWindowed(dl, time, script(k, fired[k].node), maxDelay, maxLate);
    }
  }

  // ---------- callbacks that arm strictly ahead ----------

  /** The timers stopped by the callbacks of `fired`. */
  function Stopped(script: Script, fired: seq<Firing>): set<Node> {
    if fired == [] then {}
    else var k := |fired| - 1; Stopped(script, fired[..k]) + Cancels(script(k, fired[k].node))
  }

  /** Every callback of `fired` arms timers strictly ahead. */
  ghost predicate AllAhead(script: Script, fired: seq<Firing>) {
    forall i | 0 <= i < |fired| :: Ahead(script(i, fired[i].node))
  }

  /**
  A point of the firing loop that began with the queue `dl0`: `fired` are expired entries of
  `dl0`, each once and in order; what is still expired was queued then and comes later; and
  every entry expired then was fired, was stopped, or is still to come.
  */
  ghost predicate Progress(dl0: map<Node, int>, dl: map<Node, int>, time: int, fired: seq<Firing>, stopped: set<Node>) {
    && InOrder(dl0, time, fired)
    && (forall n | n in dl && dl[n] <= time ::
          && n in dl0 && dl0[n] == dl[n]
          && forall i | 0 <= i < |fired| :: fired[i].node != n && fired[i].deadline <= dl[n])
    && (forall n | n in dl0 && dl0[n] <= time ::
          WasFired(fired, n) || n in stopped || (n in dl && dl[n] == dl0[n]))
  }

  /** Expired entries of `dl0`, each once, in non-decreasing order of true deadline. */
  ghost predicate InOrder(dl0: map<Node, int>, time: int, fired: seq<Firing>) {
    && (forall i | 0 <= i < |fired| ::
          fired[i].node in dl0 && dl0[fired[i].node] == fired[i].deadline && fired[i].deadline <= time)
    && (forall i, j | 0 <= i < j < |fired| ::
          fired[i].deadline <= fired[j].deadline && fired[i].node != fired[j].node)
  }

  /** The firing loop has run: all expired entries of `dl0` but the stopped ones, each once, in order. */
  ghost predicate Drained(dl0: map<Node, int>, time: int, fired: seq<Firing>, stopped: set<Node>) {
    InOrder(dl0, time, fired) && forall n | n in dl0 && dl0[n] <= time :: WasFired(fired, n) || n in stopped
  }

  lemma ProgressNot(dl: map<Node, int>, time: int)
    ensures Progress(dl, dl, time, [], {})
  {
  }

  lemma ProgressFires(dl0: map<Node, int>, dl: map<Node, int>, time: int, fired: seq<Firing>, stopped: set<Node>,
                      n: Node)
    requires Progress(dl0, dl, time, fired, stopped) && Earliest(dl, n) && dl[n] <= time
    ensures Progress(dl0, dl - {n}, time, fired + [Firing(n, dl[n])], stopped)
  {
    var fired' := fired + [Firing(n, dl[n])];
    forall m | m in dl0 && dl0[m] <= time
      ensures WasFired(fired', m) || m in stopped || (m in dl - {n} && dl[m] == dl0[m])
    {
      if WasFired(fired, m) {
        var i :| 0 <= i < |fired| && fired[i].node == m;
        assert fired'[i].node == m;
      } else if m == n {
        assert fired'[|fired|].node == m;
      }
    }
  }

  lemma ProgressMeddles(dl0: map<Node, int>, dl: map<Node, int>, dl': map<Node, int>, time: int,
                        fired: seq<Firing>, stopped: set<Node>, more: set<Node>)
    requires Progress(dl0, dl, time, fired, stopped) && Meddled(dl, dl', time, more)
    ensures Progress(dl0, dl', time, fired, stopped + more)
  {
  }

  /** A firing whose callback arms strictly ahead leaves fewer timers due. */
  lemma ExpiredDrops(dl: map<Node, int>, time: int, n: Node, acts: seq<Action>)
    requires n in dl && dl[n] <= time && Ahead(acts)
    ensures |Expired(Effects(dl - {n}, time, acts), time)| < |Expired(dl, time)|
  {
    hide Effects;
    EffectsMeddle(dl - {n}, time, acts);
    assert n in Expired(dl, time);
    assert Expired(Effects(dl - {n}, time, acts), time) <= Expired(dl, time) - {n};
    SubsetSize(Expired(Effects(dl - {n}, time, acts), time), Expired(dl, time) - {n});
  }

  lemma FiringTurn(dl0: map<Node, int>, dl: map<Node, int>, time: int, fired: seq<Firing>, stopped: set<Node>,
                   f: Firing, acts: seq<Action>)
    requires Progress(dl0, dl, time, fired, stopped) && FiresNow(dl, time, f) && Ahead(acts)
    ensures var dl' := Effects(dl - {f.node}, time, acts);
            && Progress(dl0, dl', time, fired + [f], stopped + Cancels(acts))
            && |Expired(dl', time)| < |Expired(dl, time)|
  {
    hide Progress, Effects, Meddled;
    ProgressFires(dl0, dl, time, fired, stopped, f.node);
    EffectsMeddle(dl - {f.node}, time, acts);
    ProgressMeddles(dl0, dl - {f.node}, Effects(dl - {f.node}, time, acts), time, fired + [f], stopped, Cancels(acts));
    ExpiredDrops(dl, time, f.node, acts);
  }

  lemma AheadBefore(script: Script, fired: seq<Firing>)
    requires AllAhead(script, fired) && fired != []
    ensures var k := |fired| - 1; AllAhead(script, fired[..k]) && Ahead(script(k, fired[k].node))
  {
    hide Ahead;
  }

  /** Callbacks that arm strictly ahead: the calls are due entries in order, at most as many as were due. */
  lemma {:induction false} FiringOrder(dl0: map<Node, int>, time: int, script: Script, fired: seq<Firing>)
    requires Fires(dl0, time, script, fired) && AllAhead(script, fired)
    ensures var dl := Queued(dl0, time, script, fired);
            && Progress(dl0, dl, time, fired, Stopped(script, fired))
            && |fired| + |Expired(dl, time)| <= |Expired(dl0, time)|
            && (Expired(dl, time) == {} ==> Drained(dl0, time, fired, Stopped(script, fired)))
  {
    hide Progress, Fires, FiresNow, Effects, AllAhead, Ahead, Drained, Expired;
    if fired == [] {
      ProgressNot(dl0, time);
    } else {
      var k := |fired| - 1;
      FiresBefore(dl0, time, script, fired, k);
      AheadBefore(script, fired);
      FiringOrder(dl0, time, script, fired[..k]);
      assert fired == fired[..k] + [fired[k]];
      FiringTurn(dl0, Queued(dl0, time, script, fired[..k]), time, fired[..k], Stopped(script, fired[..k]),
                 fired[k], script(k, fired[k].node));
    }
    ProgressEnds(dl0, Queued(dl0, time, script, fired), time, fired, Stopped(script, fired));
  }

  lemma ProgressEnds(dl0: map<Node, int>, dl: map<Node, int>, time: int, fired: seq<Firing>, stopped: set<Node>)
    ensures Progress(dl0, dl, time, fired, stopped) && Expired(dl, time) == {} ==> Drained(dl0, time, fired, stopped)
  {
    if Progress(dl0, dl, time, fired, stopped) && Expired(dl, time) == {} {
      forall n | n in dl0 && dl0[n] <= time ensures WasFired(fired, n) || n in stopped {
        assert n !in Expired(dl, time);
      }
    }
  }

  /** When no callback stops a timer, the calls are a sorted permutation of the expired entries. */
  lemma {:induction false} DrainedOnce(dl0: map<Node, int>, time: int, fired: seq<Firing>)
    requires Drained(dl0, time, fired, {})
    ensures |fired| == |Expired(dl0, time)|
    ensures forall n :: n in Expired(dl0, time) <==> WasFired(fired, n)
    ensures forall i | 0 <= i < |fired| :: dl0[fired[i].node] == fired[i].deadline
    ensures forall i, j | 0 <= i < j < |fired| :: fired[i].deadline <= fired[j].deadline
  {
    FiredNodes(fired, |fired|);
    assert Expired(dl0, time) == NodesOf(fired, |fired|);
  }

  function NodesOf(fired: seq<Firing>, k: nat): set<Node>
    requires k <= |fired|
  {
    set i | 0 <= i < k :: fired[i].node
  }

  lemma {:induction false} FiredNodes(fired: seq<Firing>, k: nat)
    requires k <= |fired| && forall i, j | 0 <= i < j < |fired| :: fired[i].node != fired[j].node
    ensures |NodesOf(fired, k)| == k
  {
    if k > 0 {
      FiredNodes(fired, k - 1);
      assert NodesOf(fired, k) == NodesOf(fired, k - 1) + {fired[k - 1].node};
    }
  }

  // ---------- callbacks that arm again at once ----------

  lemma {:induction false} EarliestExists(dl: map<Node, int>) returns (n: Node)
    requires dl != map[]
    ensures Earliest(dl, n)
    decreases |dl|
  {
    var o :| o in dl;
    var rest := dl - {o};
    n := o;
    if rest != map[] {
      ProperSubsetSize(rest.Keys, dl.Keys);
      var m := EarliestExists(rest);
      n := if dl[m] < dl[o] then m else o;
    }
    forall p | p in dl ensures dl[n] <= dl[p] {
      assert p == o || p in rest;
    }
  }

  lemma ProperSubsetSize(a: set<Node>, b: set<Node>)
    requires a < b
    ensures |a| < |b|
  {
    var x :| x in b && x !in a;
    SubsetSize(a, b - {x});
  }

  /** Whatever the callbacks do, the loop can go on until no timer is due. */
  lemma {:induction false} Fired(dl0: map<Node, int>, time: int, script: Script, k: nat) returns (fired: seq<Firing>)
    ensures Fires(dl0, time, script, fired) && |fired| <= k
    ensures |fired| == k || Expired(Queued(dl0, time, script, fired), time) == {}
  {
    if k == 0 {
      fired := [];
    } else {
      fired := Fired(dl0, time, script, k - 1);
      var dl := Queued(dl0, time, script, fired);
      if Expired(dl, time) != {} {
        var due :| due in Expired(dl, time);
        var n := EarliestExists(dl);
        FiresOn(dl0, time, script, fired, Firing(n, dl[n]));
        fired := fired + [Firing(n, dl[n])];
      }
    }
  }

  /** Every callback arms its own timer again, `delay(n)` ahead. */
  function Rearming(delay: Node -> int): Script {
    (_: nat, n: Node) => [Arm(n, delay(n))]
  }

  lemma RearmEffect(dl: map<Node, int>, time: int, delay: Node -> int, i: nat, n: Node)
    ensures Effects(dl - {n}, time, Rearming(delay)(i, n)) == (dl - {n})[n := time + delay(n)]
  {
    var a := Arm(n, delay(n));
    assert [a][..0] == [];
    assert Effects(dl - {n}, time, [a]) == Effect(Effects(dl - {n}, time, []), time, a);
  }

  /** The due timers that arm themselves again at once, or in the past. */
  ghost function Restless(dl: map<Node, int>, time: int, delay: Node -> int): set<Node> {
    set n | n in Expired(dl, time) && delay(n) <= 0
  }

  /**
  After any number of calls the restless timers are still due, and every call has dealt with
  one timer if there are none.
  */
  lemma {:induction false} RearmTurns(dl0: map<Node, int>, time: int, delay: Node -> int, fired: seq<Firing>)
    requires Fires(dl0, time, Rearming(delay), fired)
    ensures var dl := Queued(dl0, time, Rearming(delay), fired);
            && Restless(dl0, time, delay) <= Restless(dl, time, delay)
            && Expired(dl, time) <= Expired(dl0, time)
            && (Restless(dl0, time, delay) == {} ==> |Expired(dl, time)| == |Expired(dl0, time)| - |fired|)
  {
    if fired != [] {
      var k := |fired| - 1;
      FiresBefore(dl0, time, Rearming(delay), fired, k);
      RearmTurns(dl0, time, delay, fired[..k]);
      RearmTurn(Queued(dl0, time, Rearming(delay), fired[..k]), time, delay, k, fired[k].node);
      if Restless(dl0, time, delay) == {} {
        var n := fired[k].node;
        assert n in Expired(dl0, time) && n !in Restless(dl0, time, delay);
      }
    }
  }

  lemma RearmTurn(dl: map<Node, int>, time: int, delay: Node -> int, i: nat, n: Node)
    requires n in dl && dl[n] <= time
    ensures var dl' := Effects(dl - {n}, time, Rearming(delay)(i, n));
            && Restless(dl, time, delay) <= Restless(dl', time, delay)
            && Expired(dl', time) <= Expired(dl, time)
            && (delay(n) > 0 ==> |Expired(dl', time)| == |Expired(dl, time)| - 1)
  {
    RearmEffect(dl, time, delay, i, n);
    var dl' := (dl - {n})[n := time + delay(n)];
    if delay(n) > 0 {
      assert Expired(dl', time) == Expired(dl, time) - {n};
    }
  }

  /**
  Timers that arm themselves again from their callbacks: the firing loop comes to an end if and
  only if every due timer does so strictly ahead.  Otherwise there is a run of every length `k`,
  and after each of them a timer is still due.
  */
  lemma RearmEnds(dl0: map<Node, int>, time: int, delay: Node -> int, k: nat)
    ensures (exists fired: seq<Firing> :: Fires(dl0, time, Rearming(delay), fired)
                                          && Expired(Queued(dl0, time, Rearming(delay), fired), time) == {})
            <==> forall n | n in Expired(dl0, time) :: delay(n) > 0
    ensures (exists n :: n in Expired(dl0, time) && delay(n) <= 0) ==>
              exists fired: seq<Firing> :: |fired| == k && Fires(dl0, time, Rearming(delay), fired)
  {
    hide Fires, Queued, Rearming;
    assert Restless(dl0, time, delay) == {} <==> forall n | n in Expired(dl0, time) :: delay(n) > 0 by {
      assert forall n | n in Expired(dl0, time) && delay(n) <= 0 :: n in Restless(dl0, time, delay);
    }
    if Restless(dl0, time, delay) == {} {
      var fired := Fired(dl0, time, Rearming(delay), |Expired(dl0, time)|);
      RearmTurns(dl0, time, delay, fired);
    } else {
      forall fired: seq<Firing> | Fires(dl0, time, Rearming(delay), fired)
        ensures Expired(Queued(dl0, time, Rearming(delay), fired), time) != {}
      {
        StillDue(dl0, time, delay, fired);
      }
      var fired := Fired(dl0, time, Rearming(delay), k);
      StillDue(dl0, time, delay, fired);
    }
  }

  lemma StillDue(dl0: map<Node, int>, time: int, delay: Node -> int, fired: seq<Firing>)
    requires Fires(dl0, time, Rearming(delay), fired) && Restless(dl0, time, delay) != {}
    ensures Expired(Queued(dl0, time, Rearming(delay), fired), time) != {}
  {
    hide Fires, Queued;
    RearmTurns(dl0, time, delay, fired);
    var n :| n in Restless(dl0, time, delay);
    assert n in Restless(Queued(dl0, time, Rearming(delay), fired), time, delay);
  }

  // ---------- the event loop's timers ----------

  /** The timer called last has kept the position it had, unless its own callback used it. */
  ghost predicate KeepsIndex(script: Script, fired: seq<Firing>)
    requires fired != []
    reads fired[|fired| - 1].node
  {
    var k := |fired| - 1;
    fired[k].node !in Nodes(script(k, fired[k].node)) ==> fired[k].node.index == 1
  }

  lemma LastKept(script: Script, fired: seq<Firing>, t: Node)
    requires fired != [] && fired[|fired| - 1].node == t
    requires t !in Nodes(script(|fired| - 1, t)) ==> t.index == 1
    ensures KeepsIndex(script, fired)
  {
  }

  class EvLoop {
    const timers: TimerHeap
    var now: nat
    ghost var time: int
    const maxDelay: nat
    const maxLate: nat

    ghost predicate Valid()
      reads this, timers, timers.v, timers.ix.Keys
    {
      && timers.Valid()
      && now == U32(time)
      && maxDelay + maxLate < TWO31
      && Windowed(timers.dl, time, maxDelay, maxLate)
    }

    lemma Opened()
      ensures Valid() <==> timers.Valid() && now == U32(time) && maxDelay + maxLate < TWO31
                           && Windowed(timers.dl, time, maxDelay, maxLate)
    {
    }

    constructor (ticks: nat, ghost time: int, maxDelay: nat, maxLate: nat)
      requires ticks == U32(time) && maxDelay + maxLate < TWO31
      ensures Valid() && fresh(timers) && fresh(timers.v) && timers.ix == map[] && timers.dl == map[]
      ensures this.time == time && this.maxDelay == maxDelay && this.maxLate == maxLate
    {
      timers := new TimerHeap();
      now := ticks;
      this.time, this.maxDelay, this.maxLate := time, maxDelay, maxLate;
    }

    /** `ev_timeout` */
    method Timeout(msecs: int) returns (wakeup: nat)
      requires Valid()
      ensures wakeup == U32(time + msecs)
    {
      assert U32(U32(time) + msecs) == U32(time + msecs);
      wakeup := U32(now + msecs);
    }

    /** `ev_alarm` for a timer that is not queued. */
    method Alarm(t: Node, wakeup: nat, ghost deadline: int)
      requires Valid() && t !in timers.dl && wakeup == U32(deadline)
      requires time - maxLate <= deadline <= time + maxDelay
      modifies timers, timers.v, timers.ix.Keys, t
      ensures Valid() && timers.dl == old(timers.dl)[t := deadline]
      ensures timers.ix.Keys == old(timers.ix.Keys) + {t} && (timers.v == old(timers.v) || fresh(timers.v))
    {
      hide *;
      Opened();
      KeysAgree();
      WindowAdd(t, deadline);
      timers.Insert(t, wakeup, deadline);
      Opened();
    }

    lemma KeysAgree()
      requires timers.Valid()
      ensures timers.ix.Keys == timers.dl.Keys
      ensures forall n | n in timers.dl :: 1 <= n.index <= timers.size && timers.NodeAtIndex(n.index) == n
    {
      timers.Members();
    }

    lemma WindowAdd(t: Node, d: int)
      requires Windowed(timers.dl, time, maxDelay, maxLate) && maxDelay + maxLate < TWO31
      requires time - maxLate <= d <= time + maxDelay
      ensures Windowed(timers.dl[t := d], time, maxDelay, maxLate) && Spanned(timers.dl[t := d])
    {
      WindowSpans(timers.dl[t := d], time, maxDelay, maxLate);
    }

    lemma WindowShrinks()
      requires Windowed(timers.dl, time, maxDelay, maxLate)
      ensures forall n: Node :: Windowed(timers.dl - {n}, time, maxDelay, maxLate)
    {
    }

    /**
    `ev_stop`.  Its guard only asks whether the timer's index is set, and firing a timer does not
    clear it: the timer at that position is the one removed.  `sound` is false if there is no such
    position; what the code does then, outside of its array's entries, is not modelled.
    */
    method Stop(t: Node) returns (sound: bool)
      requires Valid()
      modifies timers, timers.ix.Keys, timers.v, t
      ensures sound <==> old(t.index) == 0 || 1 <= old(t.index) <= old(timers.size)
      ensures !sound ==> unchanged(timers) && unchanged(t)
      ensures sound ==> Valid() && timers.v == old(timers.v) && t.index == 0 && t !in timers.dl
      ensures sound ==> timers.dl == if old(t.index) == 0 then old(timers.dl)
                                     else old(timers.dl) - {old(timers.NodeAtIndex(t.index))}
      ensures (sound && forall o | o in old(timers.dl) && o != t :: o in timers.dl)
              <==> old(t.index) == 0 || t in old(timers.dl)
    {
      hide *;
      Opened();
      timers.Opened();
      KeysAgree();
      WindowShrinks();
      if t.index != 0 {
        SoundExactly(timers.size, t.index);
        if !RemovalSound(timers.size, t.index) {
          return false;
        }
        ghost var n := timers.Remove(t.index);
        t.index := 0;
      }
      KeysAgree();
      Opened();
      sound := true;
    }

    /** `next_timeout` */
    method NextTimeout() returns (wait: int)
      requires Valid()
      ensures wait == -1 <==> timers.dl == map[]
      ensures wait >= -1
      ensures wait > 0 ==> exists n :: Earliest(timers.dl, n) && wait == timers.dl[n] - time
      ensures wait == 0 <==> Expired(timers.dl, time) != {}
      ensures wait == 0 ==> Due()
    {
      hide *;
      Opened();
      timers.EmptyWhen();
      timers.Opened();
      EmptyExpires();
      if timers.size == 0 {
        return -1;
      }
      timers.HeadFirst();
      ghost var n := timers.NodeAtIndex(1);
      HeadInWindow(n);
      WaitIsExact(timers.dl[n], time, maxDelay, maxLate);
      ExpiredHead(n);
      var deadline := timers.v[1].value;
      var diff := Diff32(deadline, now);
      if diff > 0 {
        return diff;
      }
      return 0;
    }

    /** The head of the queue is at or before `time`. */
    ghost predicate Due()
      requires Valid()
      reads this, timers, timers.v, timers.ix.Keys
    {
      timers.size > 0 && Earliest(timers.dl, timers.NodeAtIndex(1)) && timers.dl[timers.NodeAtIndex(1)] <= time
    }

    lemma DueMeans()
      requires Valid() && Due()
      ensures timers.size > 0
      ensures Earliest(timers.dl, timers.NodeAtIndex(1)) && timers.dl[timers.NodeAtIndex(1)] <= time
    {
    }

    lemma EmptyExpires()
      ensures timers.dl == map[] ==> Expired(timers.dl, time) == {}
    {
    }

    lemma ExpiredHead(n: Node)
      requires Valid() && timers.size > 0 && n == timers.NodeAtIndex(1) && Earliest(timers.dl, n)
      ensures Expired(timers.dl, time) != {} <==> timers.dl[n] <= time
      ensures Due() <==> timers.dl[n] <= time
      ensures timers.dl != map[]
    {
      if timers.dl[n] <= time {
        assert n in Expired(timers.dl, time);
      }
    }

    lemma HeadInWindow(n: Node)
      requires Windowed(timers.dl, time, maxDelay, maxLate) && n in timers.dl
      requires forall o | o in timers.dl :: timers.dl[n] <= timers.dl[o]
      ensures time - maxLate <= timers.dl[n] <= time + maxDelay && Earliest(timers.dl, n)
    {
    }

    /** One action of a callback. */
    method Act(a: Action)
      requires Valid() && (a.Arm? ==> 0 <= a.delay + maxLate && a.delay <= maxDelay)
      modifies timers, timers.v, timers.ix.Keys, a.node
      ensures Valid() && (timers.v == old(timers.v) || fresh(timers.v))
      ensures timers.ix.Keys <= old(timers.ix.Keys) + {a.node}
      ensures timers.dl == Effect(old(timers.dl), time, a)
    {
      hide *;
      Opened();
      KeysAgree();
      EffectIs(timers.dl, time, a);
      var queued := timers.IsQueued(a.node);
      if a.Arm? && !queued {
        var wakeup := Timeout(a.delay);
        Alarm(a.node, wakeup, time + a.delay);
      } else if a.Cancel? && queued {
        var _ := Stop(a.node);
      }
      Opened();
      KeysAgree();
    }

    lemma EffectIs(dl: map<Node, int>, time: int, a: Action)
      ensures a.Arm? && a.node !in dl ==> Effect(dl, time, a) == dl[a.node := time + a.delay]
      ensures a.Cancel? ==> Effect(dl, time, a) == dl - {a.node}
      ensures (a.Arm? <==> a.node in dl) ==> Effect(dl, time, a) == dl
    {
      assert a.node !in dl ==> dl - {a.node} == dl;
    }

    /** A callback: any sequence of actions. */
    method Callback(acts: seq<Action>)
      requires Valid() && InBounds(acts, maxDelay, maxLate)
      modifies timers, timers.v, timers.ix.Keys, Nodes(acts)
      ensures Valid() && (timers.v == old(timers.v) || fresh(timers.v))
      ensures timers.ix.Keys <= old(timers.ix.Keys) + Nodes(acts)
      ensures timers.dl == Effects(old(timers.dl), time, acts)
    {
      hide *;
      ghost var dl0 := timers.dl;
      EffectsNone(dl0, time);
      assert acts[..0] == [];
      var i := 0;
      while i < |acts|
        invariant 0 <= i <= |acts|
        invariant Valid() && (timers.v == old(timers.v) || fresh(timers.v))
        invariant timers.ix.Keys <= old(timers.ix.Keys) + Nodes(acts)
        invariant timers.dl == Effects(dl0, time, acts[..i])
      {
        EffectsNext(dl0, time, acts, i);
        BoundsAt(acts, i);
        Act(acts[i]);
        i := i + 1;
      }
      assert acts[..i] == acts;
    }

    lemma BoundsAt(acts: seq<Action>, i: nat)
      requires InBounds(acts, maxDelay, maxLate) && i < |acts|
      ensures acts[i].Arm? ==> 0 <= acts[i].delay + maxLate && acts[i].delay <= maxDelay
    {
    }

    /** The body of the firing loop: the head leaves the queue and its callback runs. */
    method FireHead(script: Script, i: nat, ghost pool: set<Node>) returns (t: Node)
      requires Valid() && Due() && Usable(script, timers.dl.Keys, pool)
      modifies timers, timers.v, timers.ix.Keys, pool
      ensures Valid() && (timers.v == old(timers.v) || fresh(timers.v))
      ensures timers.ix.Keys <= old(timers.ix.Keys) + pool
      ensures t == old(timers.NodeAtIndex(1))
      ensures timers.dl == Effects(old(timers.dl) - {t}, time, script(i, t))
      ensures t !in Nodes(script(i, t)) ==> t.index == 1
    {
      hide *;
      Opened();
      timers.Opened();
      DueMeans();
      t := Head();
      UsableAt(script, timers.dl.Keys, pool, i, t);
      WindowShrinks();
      ghost var _ := timers.Remove(1);
      Opened();
      Callback(script(i, t));
    }

    /** One turn of the firing loop that began with the queue `dl0` and has made the calls `fired`. */
    method FireNext(script: Script, i: nat, ghost limit: nat, ghost nodes: set<Node>, ghost pool: set<Node>,
                    ghost dl0: map<Node, int>, ghost fired: seq<Firing>)
      returns (t: Node, ghost fired': seq<Firing>)
      requires Valid() && Due() && Usable(script, nodes, pool) && timers.ix.Keys <= nodes + pool
      requires forall i: nat, n | i >= limit && n in nodes + pool :: Ahead(script(i, n))
      requires |fired| == i && Fires(dl0, time, script, fired)
      requires timers.dl == Queued(dl0, time, script, fired)
      modifies timers, timers.v, timers.ix.Keys, pool
      ensures Valid() && (timers.v == old(timers.v) || fresh(timers.v))
      ensures timers.ix.Keys <= old(timers.ix.Keys) + pool
      ensures |fired'| == i + 1 && fired'[..i] == fired && Fires(dl0, time, script, fired')
      ensures timers.dl == Queued(dl0, time, script, fired')
      ensures fired'[i].node == t && (t !in Nodes(script(i, t)) ==> t.index == 1)
      ensures i >= limit ==> |Expired(timers.dl, time)| < old(|Expired(timers.dl, time)|)
    {
      hide *;
      Opened();
      timers.Opened();
      KeysAgree();
      DueMeans();
      UsableOn(script, nodes, timers.dl.Keys, pool);
      ghost var n := timers.NodeAtIndex(1);
      ghost var f := Firing(n, timers.dl[n]);
      FiresIs(timers.dl, time, f);
      FiresOn(dl0, time, script, fired, f);
      if i >= limit {
        ExpiredDrops(timers.dl, time, n, script(i, n));
      }
      t := FireHead(script, i, pool);
      fired' := fired + [f];
    }

    method Head() returns (t: Node)
      requires Valid() && timers.size > 0
      ensures t == timers.NodeAtIndex(1) && t in timers.dl
    {
      ghost var _ := timers.NodeAtIndex(1);
      t := timers.v[1].node;
    }

    /** The callbacks of the timers of `nodes` use timers of `pool`, within the bounds of the clock. */
    ghost predicate Usable(script: Script, nodes: set<Node>, pool: set<Node>) {
      forall i: nat, n | n in nodes + pool :: Nodes(script(i, n)) <= pool && InBounds(script(i, n), maxDelay, maxLate)
    }

    lemma UsableAt(script: Script, nodes: set<Node>, pool: set<Node>, i: nat, n: Node)
      requires Usable(script, nodes, pool) && n in nodes + pool
      ensures Nodes(script(i, n)) <= pool && InBounds(script(i, n), maxDelay, maxLate)
    {
    }

    lemma UsableOn(script: Script, nodes: set<Node>, nodes': set<Node>, pool: set<Node>)
      requires Usable(script, nodes, pool) && nodes' <= nodes + pool
      ensures Usable(script, nodes', pool)
    {
    }

    /**
    `ev_step_timers`, where the callbacks do what `script` says, and from the call `limit` on arm
    timers strictly ahead.  `fired` lists the calls made, of the timers `called`; the queue is
    what they made of it, and nothing in it is due.
    */
    method StepTimers(script: Script, ghost limit: nat, ghost pool: set<Node>)
      returns (wait: int, called: seq<Node>, ghost fired: seq<Firing>)
      requires Valid() && Usable(script, timers.dl.Keys, pool)
      requires forall i: nat, n | i >= limit && n in timers.dl.Keys + pool :: Ahead(script(i, n))
      modifies timers, timers.v, timers.ix.Keys, pool
      ensures Valid() && (timers.v == old(timers.v) || fresh(timers.v))
      ensures timers.ix.Keys <= old(timers.ix.Keys) + pool
      ensures wait == -1 <==> old(timers.dl) == map[]
      ensures wait == 0 <==> Expired(old(timers.dl), time) != {}
      ensures wait > 0 ==> exists n :: Earliest(timers.dl, n) && wait == timers.dl[n] - time
      ensures wait >= -1 && (wait == 0 <==> fired != [])
      ensures |called| == |fired| && forall k | 0 <= k < |fired| :: called[k] == fired[k].node
      ensures Fires(old(timers.dl), time, script, fired)
      ensures timers.dl == Queued(old(timers.dl), time, script, fired) && Expired(timers.dl, time) == {}
      ensures fired != [] ==> KeepsIndex(script, fired)
    {
      hide *;
      ghost var dl0 := timers.dl;
      called, fired := [], [];
      FiresNone(dl0, time, script);
      Opened();
      KeysAgree();
      wait := NextTimeout();
      if wait != 0 {
        return;
      }
      var i: nat := 0;
      var more := true;
      while more
        invariant Valid() && (timers.v == old(timers.v) || fresh(timers.v))
        invariant timers.ix.Keys <= old(timers.ix.Keys) + pool
        invariant |called| == |fired| == i && forall k | 0 <= k < i :: called[k] == fired[k].node
        invariant Fires(dl0, time, script, fired) && timers.dl == Queued(dl0, time, script, fired)
        invariant fired != [] ==> KeepsIndex(script, fired)
        invariant more ==> Due()
        invariant !more ==> Expired(timers.dl, time) == {} && fired != []
        decreases more, if i < limit then limit - i else 0, |Expired(timers.dl, time)|
      {
        var t;
        t, fired := FireNext(script, i, limit, old(timers.dl.Keys), pool, dl0, fired);
        called := called + [t];
        i := i + 1;
        var diff := NextTimeout();
        LastKept(script, fired, t);
        more := diff == 0;
      }
    }

    lemma ClockMoves(time': int)
      requires Windowed(timers.dl, time, maxDelay, maxLate) && time <= time'
      requires forall n | n in timers.dl :: time' <= timers.dl[n] + maxLate
      ensures Windowed(timers.dl, time', maxDelay, maxLate)
    {
    }

    /** `e->now = get_ticks()`, no more than `maxLate` after the earliest deadline. */
    method ReadClock(ticks: nat, ghost time': int)
      requires Valid() && ticks == U32(time') && time <= time'
      requires forall n | n in timers.dl :: time' <= timers.dl[n] + maxLate
      modifies this`now, this`time
      ensures Valid() && time == time'
    {
      hide *;
      Opened();
      ClockMoves(time');
      now := ticks;
      time := time';
      Opened();
    }
  }

  /** A queue of one due timer, whose callback does nothing: it fires last, and nothing is left. */
  lemma OneFires(t: Node, time: int, script: Script, fired: seq<Firing>)
    requires forall i: nat, n: Node :: script(i, n) == []
    requires Fires(map[t := time], time, script, fired)
    requires Expired(Queued(map[t := time], time, script, fired), time) == {}
    ensures Queued(map[t := time], time, script, fired) == map[]
    ensures fired != [] ==> fired[|fired| - 1].node == t
  {
    hide *;
    var dl0: map<Node, int> := map[t := time];
    var dl := Queued(dl0, time, script, fired);
    forall n | n in dl ensures false {
      IdleLeaves(script, fired, n);
      Undisturbed(dl0, time, script, fired, n);
    }
    if fired != [] {
      var k := |fired| - 1;
      FiresBefore(dl0, time, script, fired, k);
      IdleLeaves(script, fired[..k], fired[k].node);
      Undisturbed(dl0, time, script, fired[..k], fired[k].node);
      FiredWasDue(Queued(dl0, time, script, fired[..k]), time, fired[k]);
    }
    assert dl.Keys == {};
  }

  lemma IdleLeaves(script: Script, fired: seq<Firing>, n: Node)
    requires forall i: nat, m: Node :: script(i, m) == []
    ensures LeftAlone(script, fired, n)
  {
  }

  lemma IdleScript(e: EvLoop, t: Node, script: Script)
    requires forall i: nat, n: Node :: script(i, n) == []
    ensures e.Usable(script, {t}, {}) && forall i: nat, n: Node :: Ahead(script(i, n))
    ensures forall fired: seq<Firing> :: fired != [] && KeepsIndex(script, fired) ==> fired[|fired| - 1].node.index == 1
    ensures forall dl: map<Node, int> | dl == map[t := e.time] :: dl.Keys == {t} && t in Expired(dl, e.time)
  {
  }

  /**
  A run that leads to an unsound stop: the only timer fires, and its callback does nothing.  It
  keeps position 1 in a heap that is empty now, so that `ev_stop` would use entry 0.
  */
  method StopAfterFiring(ticks: nat, ghost time: int, maxDelay: nat, maxLate: nat)
    returns (e: EvLoop, t: Node, sound: bool)
    requires ticks == U32(time) && maxDelay + maxLate < TWO31
    ensures e.time == time && t.index == 1 && e.timers.size == 0 && !sound
  {
    hide *;
    e := new EvLoop(ticks, time, maxDelay, maxLate);
    t := new Node();
    var wakeup := e.Timeout(0);
    e.Alarm(t, wakeup, time);
    assert e.timers.dl == map[t := time];
    var script: Script := (_: nat, _: Node) => [];
    IdleScript(e, t, script);
    var wait, called;
    ghost var fired;
    wait, called, fired := e.StepTimers(script, 0, {});
    OneFires(t, time, script, fired);
    EmptyNow(e, t, script, fired);
    sound := e.Stop(t);
  }

  lemma EmptyNow(e: EvLoop, t: Node, script: Script, fired: seq<Firing>)
    requires e.Valid() && e.timers.dl == map[] && fired != [] && fired[|fired| - 1].node == t
    requires KeepsIndex(script, fired) && forall i: nat, n: Node :: script(i, n) == []
    ensures e.timers.size == 0 && t.index == 1 && t !in e.timers.dl
  {
    hide Queue, Spanned;
    e.timers.EmptyWhen();
  }
}
