/**
The coroutine state machine on values: the threads, the current one, and the machine they share.

`chain` is the explicit call stack, from the thread resumed by the main program to the current
one; the threads' `yieldTo` fields must link the same threads.  `ctx` and `mainCtx` are the
contexts in which the parked threads and the main program called the switch.

`Inv` is what every operation keeps (`CallKeeps`, `TailCallKeeps`, `YieldKeeps` and their
companions); the contracts in `CThread` state the operations by the functions defined here.
*/
module Coroutines {
  import opened Probe
  import opened Switch

  /** A thread; `lo` is the low end of its stack and `addr` its structure's address, the high end. */
  class Thread {
    const lo: int
    const addr: int
    var stack: int
    var caller: Caller
    var yieldTo: Thread?
    var exitTo: Thread?
    var exitCode: int
    var finished: bool

    constructor (lo: int, addr: int, stack: int)
      ensures this.lo == lo && this.addr == addr && Look() == Fresh(stack)
    {
      this.lo, this.addr, this.stack := lo, addr, stack;
      caller, yieldTo, exitTo, exitCode, finished := Caller(0, 0, 0), null, null, 0, false;
    }

    ghost function Look(): Fields
      reads this
    {
      Fields(stack, caller, yieldTo, exitTo, exitCode, finished)
    }
  }

  datatype Fields = Fields(stack: int, caller: Caller, yieldTo: Thread?, exitTo: Thread?, exitCode: int, finished: bool)

  /** A zeroed structure but for its stack pointer. */
  function Fresh(stack: int): Fields {
    Fields(stack, Caller(0, 0, 0), null, null, 0, false)
  }

  /** The stack of the main program, `[lo, hi)`. */
  datatype Region = Region(lo: int, hi: int)

  datatype State = State(self: Thread?, chain: seq<Thread>, th: map<Thread, Fields>,
                         main: Region, mainStack: int, numThreads: int,
                         r: Regs, mem: Memory,
                         ctx: map<Thread, Context>, mainCtx: Context,
                         joins: map<Thread, Thread>)

  // ---------- the invariant ----------

  function Below(chain: seq<Thread>, i: nat): Thread?
    requires i <= |chain|
  {
    if i == 0 then null else chain[i - 1]
  }

  /** The `yieldTo` fields link the chain from its top down to the main program. */
  ghost predicate Links(chain: seq<Thread>, th: map<Thread, Fields>) {
    && (forall i | 0 <= i < |chain| :: chain[i] in th && th[chain[i]].yieldTo == Below(chain, i))
    && (forall i | 0 <= i < |chain| - 1 :: !th[chain[i]].finished)
    && (forall i, j | 0 <= i < j < |chain| :: chain[i] != chain[j])
  }

  ghost predicate Chained(s: State) {
    s.self == Below(s.chain, |s.chain|) && Links(s.chain, s.th)
  }

  /** The stacks do not overlap, and the stack pointer is in the current one. */
  ghost predicate Apart(s: State) {
    Spaced(s) && Low(s) <= s.r.rsp <= High(s)
  }

  ghost predicate Spaced(s: State) {
    && (forall t, u | t in s.th && u in s.th && t != u ::
          t.addr + SIZEOF_CTHREAD <= u.lo || u.addr + SIZEOF_CTHREAD <= t.lo)
    && (forall t | t in s.th :: t.lo + 64 <= t.addr && (t.addr + SIZEOF_CTHREAD <= s.main.lo || s.main.hi <= t.lo))
  }

  function Low(s: State): int {
    if s.self == null then s.main.lo else s.self.lo
  }

  /** A thread keeps the word below its structure, the return address of its function, until it has finished. */
  function High(s: State): int {
    if s.self == null then s.main.hi
    else if s.self in s.th && s.th[s.self].finished then s.self.addr
    else s.self.addr - 8
  }

  ghost predicate Saved(s: State, t: Thread)
    requires t in s.th
  {
    && t in s.ctx
    && t.lo <= s.th[t].stack && s.th[t].stack + IMAGE <= t.addr - 8
    && Image(s.mem, s.th[t].stack, s.ctx[t])
  }

  ghost predicate MainSaved(s: State) {
    && s.main.lo <= s.mainStack && s.mainStack + IMAGE <= s.main.hi
    && Image(s.mem, s.mainStack, s.mainCtx)
  }

  /** Every unfinished thread but the current one, and the main program under them, is saved. */
  ghost predicate Parked(s: State) {
    && (forall t | t in s.th && t != s.self && !s.th[t].finished :: Saved(s, t))
    && (s.self != null ==> MainSaved(s))
  }

  ghost function ContextOf(ctx: map<Thread, Context>, mainCtx: Context, t: Thread?): Context {
    if t != null && t in ctx then ctx[t] else mainCtx
  }

  /** Every thread of the chain records the context of the one below it. */
  ghost predicate Records(chain: seq<Thread>, th: map<Thread, Fields>, ctx: map<Thread, Context>, mainCtx: Context) {
    && (forall i | 0 <= i < |chain| && chain[i] in th ::
          th[chain[i]].caller == CallerOf(ContextOf(ctx, mainCtx, Below(chain, i))))
    && (forall i | 0 <= i < |chain| - 1 :: chain[i] in ctx)
  }

  ghost predicate Recorded(s: State) {
    Records(s.chain, s.th, s.ctx, s.mainCtx)
  }

  ghost function Unfinished(s: State): set<Thread> {
    set t | t in s.th && !s.th[t].finished
  }

  /**
  Joins: a target names the thread that waits for it, and that thread is off the chain, not to
  be resumed, until the target finishes; then it is the current thread.
  */
  ghost predicate Joins(self: Thread?, chain: seq<Thread>, th: map<Thread, Fields>, joins: map<Thread, Thread>) {
    && (forall t | t in th && th[t].exitTo != null :: th[t].exitTo in joins && joins[th[t].exitTo] == t)
    && (forall j | j in joins :: Waiting(self, chain, th, j, joins[j]))
  }

  ghost predicate Waiting(self: Thread?, chain: seq<Thread>, th: map<Thread, Fields>, j: Thread, t: Thread) {
    && j in th && !th[j].finished && t in th && t != j && th[t].exitTo == j
    && (if j == self then th[t].finished else j !in chain && !th[t].finished)
  }

  ghost predicate Joined(s: State) {
    Joins(s.self, s.chain, s.th, s.joins)
  }

  /** Every unfinished thread's function returns to `__morestack`. */
  ghost predicate Guarded(s: State) {
    forall t | t in s.th && !s.th[t].finished :: Word(s.mem, t.addr - 8) == MORESTACK + 1 && t.addr % 16 == 0
  }

  /** The invariant but for the joins. */
  ghost predicate Base(s: State) {
    && Chained(s) && Apart(s) && Parked(s) && Recorded(s) && Guarded(s)
    && s.numThreads == |Unfinished(s)|
  }

  ghost predicate Inv(s: State) {
    Base(s) && Joined(s) && (s.self != null ==> !s.th[s.self].finished)
  }

  // ---------- the switch ----------

  /** There is room on the current stack for the switch. */
  ghost predicate Room(s: State) {
    Low(s) + IMAGE <= s.r.rsp
  }

  /** The current thread, or the main program, saves its context in a call that returns to `ret`. */
  function Save(s: State, ret: int): State
    requires s.self != null ==> s.self in s.th
  {
    var saved := s.r.rsp - IMAGE;
    var t := s.(mem := Pushed(s.mem, s.r, ret));
    if s.self == null then t.(mainStack := saved, mainCtx := ContextAt(s.r, ret))
    else t.(th := s.th[s.self := s.th[s.self].(stack := saved)], ctx := s.ctx[s.self := ContextAt(s.r, ret)])
  }

  /** `to`, or the main program, becomes the current thread where it left off. */
  function Enter(s: State, to: Thread?, chain: seq<Thread>, data: int): State {
    s.(self := to, chain := chain,
       r := Resumed(if to != null && to in s.ctx then s.ctx[to] else s.mainCtx, data))
  }

  /** After a save, everything that is not finished is saved. */
  ghost predicate AllSaved(s: State) {
    (forall t | t in s.th && !s.th[t].finished :: Saved(s, t)) && MainSaved(s)
  }

  lemma SelfInChain(s: State)
    requires Chained(s)
    ensures s.self != null ==> s.chain != [] && s.self == s.chain[|s.chain| - 1] && s.self in s.th
    ensures s.self == null ==> s.chain == []
  {
  }

  /** A context saved elsewhere survives the pushes on the current stack. */
  lemma OthersSurvive(s: State, ret: int, sp: int, c: Context)
    requires Image(s.mem, sp, c) && (sp + IMAGE <= Low(s) || High(s) <= sp) && Room(s) && s.r.rsp <= High(s)
    ensures Image(Pushed(s.mem, s.r, ret), sp, c)
  {
    PushedImage(s.mem, s.r, ret);
    ImageFrame(s.mem, Pushed(s.mem, s.r, ret), sp, c);
  }

  lemma ThreadSurvives(s: State, ret: int, t: Thread)
    requires Base(s) && Room(s) && t in s.th && !s.th[t].finished && t != s.self
    ensures s.self != null ==> s.self in s.th
    ensures Saved(Save(s, ret), t)
  {
    hide Image, Pushed, Guarded, Recorded;
    SelfInChain(s);
    assert Saved(s, t);
    OthersSurvive(s, ret, s.th[t].stack, s.ctx[t]);
  }

  lemma SelfSaved(s: State, ret: int)
    requires Base(s) && Room(s) && s.self != null && s.self in s.th && !s.th[s.self].finished
    ensures Saved(Save(s, ret), s.self)
  {
    hide Image, Pushed, Guarded, Recorded;
    SelfInChain(s);
    PushedImage(s.mem, s.r, ret);
  }

  lemma MainSurvives(s: State, ret: int)
    requires Base(s) && Room(s)
    ensures s.self != null ==> s.self in s.th
    ensures MainSaved(Save(s, ret))
  {
    hide Image, Pushed, Guarded, Recorded;
    SelfInChain(s);
    if s.self == null {
      PushedImage(s.mem, s.r, ret);
    } else {
      OthersSurvive(s, ret, s.mainStack, s.mainCtx);
    }
  }

  lemma SaveGuards(s: State, ret: int)
    requires Base(s) && Room(s)
    ensures s.self != null ==> s.self in s.th
    ensures Guarded(Save(s, ret))
  {
    hide Image, Pushed, Parked, Recorded;
    SelfInChain(s);
    PushedImage(s.mem, s.r, ret);
  }

  lemma SaveSaves(s: State, ret: int)
    requires Base(s) && Room(s)
    ensures s.self != null ==> s.self in s.th
    ensures AllSaved(Save(s, ret)) && Guarded(Save(s, ret))
  {
    hide Base, Saved, MainSaved;
    MainSurvives(s, ret);
    SaveGuards(s, ret);
    var u := Save(s, ret);
    forall t | t in u.th && !u.th[t].finished ensures Saved(u, t) {
      if t == s.self {
        SelfSaved(s, ret);
      } else {
        ThreadSurvives(s, ret, t);
      }
    }
  }

  // ---------- the operations ----------

  /** `cthread_call`, and the switch at the end of `cthread_start` and `cthread_main_start`. */
  function Call(s: State, to: Thread, data: int, ret: int): State
    requires to in s.th && (s.self != null ==> s.self in s.th)
  {
    var u := Save(s, ret);
    var f := u.th[to].(yieldTo := s.self, caller := CallerOf(ContextAt(s.r, ret)));
    Enter(u.(th := u.th[to := f]), to, s.chain + [to], data)
  }

  /** `cthread_tailcall` */
  function TailCall(s: State, to: Thread, data: int, ret: int): State
    requires to in s.th && s.self != null && s.self in s.th && s.chain != []
  {
    var u := Save(s, ret);
    var f := u.th[to].(yieldTo := s.th[s.self].yieldTo, caller := s.th[s.self].caller);
    Enter(u.(th := u.th[to := f]), to, s.chain[..|s.chain| - 1] + [to], data)
  }

  /** `do_yield` */
  function Yield(s: State, data: int, ret: int): State
    requires s.self != null && s.self in s.th && s.chain != []
  {
    Enter(Save(s, ret), s.th[s.self].yieldTo, s.chain[..|s.chain| - 1], data)
  }

  function WithYieldTo(s: State, to: Thread, from: Thread?): State
    requires to in s.th
  {
    s.(th := s.th[to := s.th[to].(yieldTo := from)])
  }

  function WithCaller(s: State, to: Thread, caller: Caller): State
    requires to in s.th
  {
    s.(th := s.th[to := s.th[to].(caller := caller)])
  }

  /** A call is its assignments around a switch, a tail call those before one. */
  lemma CallInSteps(s: State, to: Thread, data: int, ret: int)
    requires to in s.th && to != s.self && (s.self != null ==> s.self in s.th)
    ensures var u := WithYieldTo(s, to, s.self);
            && (u.self != null ==> u.self in u.th) && u.th[to].stack == s.th[to].stack && u.th.Keys == s.th.Keys
            && u.self == s.self && u.ctx == s.ctx && u.mainCtx == s.mainCtx
            && u.r == s.r && u.mem == s.mem && u.chain == s.chain
            && var v := Enter(Save(u, ret), to, s.chain + [to], data);
               to in v.th && WithCaller(v, to, CallerOf(ContextAt(s.r, ret))) == Call(s, to, data, ret)
  {
    hide Pushed, ContextAt, Resumed;
    var v := Enter(Save(WithYieldTo(s, to, s.self), ret), to, s.chain + [to], data);
    assert WithCaller(v, to, CallerOf(ContextAt(s.r, ret))).th == Call(s, to, data, ret).th;
  }

  lemma TailCallInSteps(s: State, to: Thread, data: int, ret: int)
    requires to in s.th && s.self != null && to != s.self && s.self in s.th && s.chain != []
    ensures var f := s.th[s.self];
            var u := WithYieldTo(s, to, f.yieldTo);
            && u.th[s.self] == f && u.th.Keys == s.th.Keys
            && var w := WithCaller(u, to, f.caller);
               && w.self in w.th && w.th[to].stack == s.th[to].stack && w.th.Keys == s.th.Keys
               && w.self == s.self && w.ctx == s.ctx && w.mainCtx == s.mainCtx
               && w.r == s.r && w.mem == s.mem && w.chain == s.chain
               && Enter(Save(w, ret), to, s.chain[..|s.chain| - 1] + [to], data) == TailCall(s, to, data, ret)
  {
    hide Pushed, ContextAt, Resumed;
    var w := WithCaller(WithYieldTo(s, to, s.th[s.self].yieldTo), to, s.th[s.self].caller);
    var f, u := s.th[s.self], Save(s, ret);
    assert Save(w, ret).th == u.th[to := u.th[to].(yieldTo := f.yieldTo, caller := f.caller)];
  }

  /** `to` is parked and off the chain. */
  ghost predicate Callable(s: State, to: Thread) {
    to in s.th && !s.th[to].finished && to !in s.chain
  }

  /** `w` differs from `u` only in the links and records of threads. */
  ghost predicate Relinked(u: State, w: State) {
    && w == u.(th := w.th)
    && w.th.Keys == u.th.Keys
    && forall t | t in u.th :: w.th[t].stack == u.th[t].stack && w.th[t].finished == u.th[t].finished
  }

  /** Entering a saved thread, or the main program, after a save. */
  lemma EnterParks(u: State, w: State, to: Thread?, chain: seq<Thread>, data: int)
    requires AllSaved(u) && Guarded(u) && Spaced(u) && Relinked(u, w)
    requires to != null ==> to in u.th && !u.th[to].finished
    ensures var v := Enter(w, to, chain, data);
            Parked(v) && Guarded(v) && Apart(v) && Unfinished(v) == Unfinished(u)
            && v.r == Resumed(ContextOf(u.ctx, u.mainCtx, to), data)
  {
    var v := Enter(w, to, chain, data);
    forall t | t in v.th && t != to && !v.th[t].finished ensures Saved(v, t) {
      assert Saved(u, t);
    }
    assert to != null ==> Saved(u, to);
  }

  /** What a save changes: the saving thread's stack pointer and context, or the main program's. */
  lemma SaveFacts(s: State, ret: int)
    requires Base(s)
    ensures s.self != null ==> s.self in s.th && s.chain != [] && s.self == s.chain[|s.chain| - 1]
    ensures s.self == null ==> s.chain == []
    ensures var u := Save(s, ret);
            && u.th.Keys == s.th.Keys && u.numThreads == s.numThreads && u.chain == s.chain && u.self == s.self
            && u.main == s.main && u.joins == s.joins
            && (forall t | t in s.th :: u.th[t].(stack := 0) == s.th[t].(stack := 0))
            && Resaved(s.chain, s.ctx, s.mainCtx, u.ctx, u.mainCtx)
            && ContextOf(u.ctx, u.mainCtx, s.self) == ContextAt(s.r, ret)
            && (s.self != null ==> s.self in u.ctx)
  {
    hide Parked, Guarded, Recorded, Apart, Pushed, Links;
    SelfInChain(s);
  }

  lemma SaveSpaces(s: State, ret: int)
    requires Base(s) && (s.self != null ==> s.self in s.th)
    ensures Spaced(Save(s, ret)) && Unfinished(Save(s, ret)) == Unfinished(s)
    ensures SameLinks(s.chain, s.th, Save(s, ret).th)
  {
    hide Parked, Guarded, Recorded, Chained, Pushed;
  }

  // ---------- chains ----------

  /** The threads of `chain` have the same links, records and ends in `th` and `th'`. */
  ghost predicate SameLinks(chain: seq<Thread>, th: map<Thread, Fields>, th': map<Thread, Fields>) {
    forall t | t in chain && t in th ::
      t in th' && th'[t].yieldTo == th[t].yieldTo && th'[t].finished == th[t].finished && th'[t].caller == th[t].caller
  }

  lemma BelowPush(chain: seq<Thread>, to: Thread)
    ensures forall i | 0 <= i <= |chain| :: Below(chain + [to], i) == Below(chain, i)
    ensures forall i | 0 <= i < |chain| :: (chain + [to])[i] == chain[i]
  {
  }

  lemma LinksPush(chain: seq<Thread>, th: map<Thread, Fields>, th': map<Thread, Fields>, to: Thread)
    requires Links(chain, th) && SameLinks(chain, th, th')
    requires to !in chain && to in th' && th'[to].yieldTo == Below(chain, |chain|)
    requires chain != [] ==> !th[chain[|chain| - 1]].finished
    ensures Links(chain + [to], th')
  {
    hide Below;
    BelowPush(chain, to);
    var next := chain + [to];
    forall i | 0 <= i < |next| ensures next[i] in th' && th'[next[i]].yieldTo == Below(next, i) {
      if i < |chain| {
        assert next[i] == chain[i] && chain[i] in th;
      }
    }
    forall i | 0 <= i < |next| - 1 ensures !th'[next[i]].finished {
      assert next[i] == chain[i];
    }
  }

  lemma LinksPop(chain: seq<Thread>, th: map<Thread, Fields>, th': map<Thread, Fields>)
    requires Links(chain, th) && SameLinks(chain, th, th') && chain != []
    ensures Links(chain[..|chain| - 1], th')
    ensures th[chain[|chain| - 1]].yieldTo == Below(chain, |chain| - 1)
    ensures SameLinks(chain[..|chain| - 1], th, th')
    ensures |chain| > 1 ==> !th[chain[|chain| - 2]].finished
  {
  }

  /** Saving the top of the chain, or the main program under an empty one. */
  ghost predicate Resaved(chain: seq<Thread>, ctx: map<Thread, Context>, mainCtx: Context,
                          ctx': map<Thread, Context>, mainCtx': Context)
  {
    if chain == [] then ctx' == ctx
    else mainCtx' == mainCtx && forall t | t in ctx :: t in ctx' && (t != chain[|chain| - 1] ==> ctx'[t] == ctx[t])
  }

  lemma RecordsSaved(chain: seq<Thread>, th: map<Thread, Fields>, th': map<Thread, Fields>,
                     ctx: map<Thread, Context>, mainCtx: Context, ctx': map<Thread, Context>, mainCtx': Context)
    requires Links(chain, th) && Records(chain, th, ctx, mainCtx) && SameLinks(chain, th, th')
    requires Resaved(chain, ctx, mainCtx, ctx', mainCtx')
    ensures Records(chain, th', ctx', mainCtx')
  {
  }

  lemma RecordsPush(chain: seq<Thread>, th: map<Thread, Fields>, th': map<Thread, Fields>,
                    ctx: map<Thread, Context>, mainCtx: Context, to: Thread)
    requires Links(chain, th) && Records(chain, th, ctx, mainCtx) && SameLinks(chain, th, th')
    requires to !in chain && to in th' && (chain != [] ==> chain[|chain| - 1] in ctx)
    requires th'[to].caller == CallerOf(ContextOf(ctx, mainCtx, Below(chain, |chain|)))
    ensures Records(chain + [to], th', ctx, mainCtx)
  {
    hide Below, ContextOf;
    BelowPush(chain, to);
    var next := chain + [to];
    forall i | 0 <= i < |next|
      ensures th'[next[i]].caller == CallerOf(ContextOf(ctx, mainCtx, Below(next, i)))
      ensures i < |chain| ==> next[i] in ctx
    {
      if i < |chain| {
        assert next[i] == chain[i] && chain[i] in th;
      }
    }
  }

  lemma RecordsPop(chain: seq<Thread>, th: map<Thread, Fields>, ctx: map<Thread, Context>, mainCtx: Context)
    requires Links(chain, th) && Records(chain, th, ctx, mainCtx) && chain != []
    ensures Records(chain[..|chain| - 1], th, ctx, mainCtx)
    ensures th[chain[|chain| - 1]].caller == CallerOf(ContextOf(ctx, mainCtx, Below(chain, |chain| - 1)))
    ensures |chain| > 1 ==> chain[|chain| - 2] in ctx
  {
  }

  // ---------- every operation keeps `Base` ----------

  lemma SavedHasContext(s: State, t: Thread)
    requires Base(s) && t in s.th && !s.th[t].finished && t != s.self
    ensures t in s.ctx
  {
    assert Saved(s, t);
  }

  lemma CallBase(s: State, to: Thread, data: int, ret: int)
    requires Base(s) && Room(s) && Callable(s, to) && (s.self != null ==> s.self in s.th && !s.th[s.self].finished)
    ensures Base(Call(s, to, data, ret))
    ensures to in s.ctx && Call(s, to, data, ret).r == Resumed(s.ctx[to], data)
  {
    hide AllSaved, Guarded, Spaced, Saved, MainSaved, Links, Records, Save;
    SaveSaves(s, ret);
    SaveFacts(s, ret);
    SaveSpaces(s, ret);
    var u := Save(s, ret);
    var w := u.(th := u.th[to := u.th[to].(yieldTo := s.self, caller := CallerOf(ContextAt(s.r, ret)))]);
    EnterParks(u, w, to, s.chain + [to], data);
    RecordsSaved(s.chain, s.th, u.th, s.ctx, s.mainCtx, u.ctx, u.mainCtx);
    LinksPush(s.chain, s.th, w.th, to);
    LinksKept(s.chain, s.th, u.th);
    RecordsPush(s.chain, u.th, w.th, u.ctx, u.mainCtx, to);
    SavedHasContext(s, to);
  }

  lemma LinksKept(chain: seq<Thread>, th: map<Thread, Fields>, th': map<Thread, Fields>)
    requires Links(chain, th) && SameLinks(chain, th, th')
    ensures Links(chain, th')
  {
  }

  lemma YieldBase(s: State, data: int, ret: int)
    requires Base(s) && Room(s) && s.self != null
    ensures s.self in s.th && s.chain != [] && Base(Yield(s, data, ret))
    ensures var to := Below(s.chain, |s.chain| - 1);
            && Yield(s, data, ret).self == to
            && (to != null ==> to in s.ctx)
            && Yield(s, data, ret).r == Resumed(if to != null then s.ctx[to] else s.mainCtx, data)
  {
    hide AllSaved, Guarded, Spaced, Saved, MainSaved, Links, Records, Save;
    SaveSaves(s, ret);
    SaveFacts(s, ret);
    SaveSpaces(s, ret);
    var u, n, to := Save(s, ret), |s.chain|, Below(s.chain, |s.chain| - 1);
    LinksPop(s.chain, s.th, u.th);
    BelowIsOther(s);
    BelowPop(s.chain);
    EnterParks(u, u, to, s.chain[..n - 1], data);
    LinksKept(s.chain, s.th, u.th);
    RecordsSaved(s.chain, s.th, u.th, s.ctx, s.mainCtx, u.ctx, u.mainCtx);
    RecordsPop(s.chain, u.th, u.ctx, u.mainCtx);
  }

  /** The thread below the current one is another, unfinished and saved. */
  lemma BelowIsOther(s: State)
    requires Base(s) && s.chain != []
    ensures var to := Below(s.chain, |s.chain| - 1);
            to != s.self && (to != null ==> to in s.th && !s.th[to].finished && to in s.ctx)
  {
    hide Parked, Guarded, Apart;
  }

  lemma BelowPop(chain: seq<Thread>)
    requires chain != []
    ensures Below(chain, |chain| - 1) == Below(chain[..|chain| - 1], |chain| - 1)
  {
  }

  /** `th'` is `th` but for `to`, which gets the link and the record of the top of the chain. */
  ghost predicate HandedOn(chain: seq<Thread>, th: map<Thread, Fields>, th': map<Thread, Fields>, to: Thread) {
    && chain != [] && to !in chain && chain[|chain| - 1] in th && to in th
    && var f := th[chain[|chain| - 1]];
       th' == th[to := th[to].(yieldTo := f.yieldTo, caller := f.caller)]
  }

  lemma LinksReplaceTop(chain: seq<Thread>, th: map<Thread, Fields>, th': map<Thread, Fields>, to: Thread)
    requires Links(chain, th) && HandedOn(chain, th, th', to)
    ensures Links(chain[..|chain| - 1] + [to], th')
  {
    hide Links;
    LinksPop(chain, th, th);
    BelowPop(chain);
    LinksPush(chain[..|chain| - 1], th, th', to);
  }

  lemma RecordsReplaceTop(chain: seq<Thread>, th: map<Thread, Fields>, th': map<Thread, Fields>,
                          ctx: map<Thread, Context>, mainCtx: Context, to: Thread)
    requires Links(chain, th) && Records(chain, th, ctx, mainCtx) && HandedOn(chain, th, th', to)
    ensures Records(chain[..|chain| - 1] + [to], th', ctx, mainCtx)
  {
    hide Links, Records;
    LinksPop(chain, th, th);
    BelowPop(chain);
    RecordsPop(chain, th, ctx, mainCtx);
    RecordsPush(chain[..|chain| - 1], th, th', ctx, mainCtx, to);
  }

  lemma TailCallBase(s: State, to: Thread, data: int, ret: int)
    requires Base(s) && Room(s) && Callable(s, to) && s.self != null
    ensures s.self in s.th && s.chain != [] && Base(TailCall(s, to, data, ret))
    ensures to in s.ctx && TailCall(s, to, data, ret).r == Resumed(s.ctx[to], data)
  {
    hide AllSaved, Guarded, Spaced, Saved, MainSaved, Links, Records, Save, Apart, Parked, Room;
    SaveSaves(s, ret);
    SaveFacts(s, ret);
    SaveSpaces(s, ret);
    var u := Save(s, ret);
    var w := u.(th := u.th[to := u.th[to].(yieldTo := s.th[s.self].yieldTo, caller := s.th[s.self].caller)]);
    EnterParks(u, w, to, s.chain[..|s.chain| - 1] + [to], data);
    LinksKept(s.chain, s.th, u.th);
    RecordsSaved(s.chain, s.th, u.th, s.ctx, s.mainCtx, u.ctx, u.mainCtx);
    LinksReplaceTop(s.chain, u.th, w.th, to);
    RecordsReplaceTop(s.chain, u.th, w.th, u.ctx, u.mainCtx, to);
    SavedHasContext(s, to);
  }

  // ---------- joins and exits ----------

  /** `(int)code` */
  function ToInt(code: int): int {
    var w := U32(code);
    if w < 0x8000_0000 then w else w - TWO32
  }

  /** The cast keeps the low 32 bits, read as a signed number. */
  lemma ToIntIs(code: int)
    ensures -0x8000_0000 <= ToInt(code) < 0x8000_0000 && (ToInt(code) - code) % TWO32 == 0
  {
    assert code == code / TWO32 * TWO32 + U32(code);
    assert (U32(code) - code) == (-(code / TWO32)) * TWO32;
    MultipleOf(-(code / TWO32));
    MultipleOf(-(code / TWO32) - 1);
  }

  lemma MultipleOf(k: int)
    ensures (k * TWO32) % TWO32 == 0
  {
  }

  /** `cthread_join` up to its yield: the target notes who waits for it. */
  function NoteJoin(s: State, t: Thread): State
    requires t in s.th && s.self != null
  {
    s.(th := s.th[t := s.th[t].(exitTo := s.self)], joins := s.joins[s.self := t])
  }

  /** `cthread_join` of a target that has not finished: the current thread yields and waits. */
  function Wait(s: State, t: Thread, ret: int): State
    requires t in s.th && s.self != null && s.self in s.th && s.chain != []
  {
    Yield(NoteJoin(s, t), 0, ret)
  }

  /** `cthread_join` after its yield. */
  function EndJoin(s: State, t: Thread): State
    requires t in s.th && s.self != null
  {
    s.(th := s.th[t := s.th[t].(exitTo := null)], joins := s.joins - {s.self})
  }

  /** `cthread_exit` up to its switch. */
  function Finish(s: State, code: int): State
    requires s.self != null && s.self in s.th
  {
    s.(th := s.th[s.self := s.th[s.self].(finished := true, exitCode := code)], numThreads := s.numThreads - 1)
  }

  /** `cthread_exit`: the waiting thread takes over, or else the thread below. */
  function Exit(s: State, code: int, ret: int): State
    requires s.self != null && s.self in s.th && s.chain != []
    requires s.th[s.self].exitTo != null ==> s.th[s.self].exitTo in s.th
  {
    var f := Finish(s, code);
    if s.th[s.self].exitTo != null then TailCall(f, s.th[s.self].exitTo, 0, ret) else Yield(f, 0, ret)
  }

  /** The current thread is not itself returning from a join. */
  ghost predicate Free(s: State) {
    s.self == null || s.self !in s.joins
  }

  lemma FinishBase(s: State, code: int)
    requires Inv(s) && s.self != null
    ensures s.self in s.th && Base(Finish(s, code))
  {
    hide Image, Recorded, Guarded, Saved, MainSaved;
    SelfInChain(s);
    var t := Finish(s, code);
    assert Unfinished(t) == Unfinished(s) - {s.self};
    FinishParks(s, code);
    FinishRecords(s, code);
  }

  lemma FinishParks(s: State, code: int)
    requires Parked(s) && Guarded(s) && s.self != null && s.self in s.th
    ensures Parked(Finish(s, code)) && Guarded(Finish(s, code))
  {
    hide Image;
    var u := Finish(s, code);
    forall t | t in u.th && t != u.self && !u.th[t].finished ensures Saved(u, t) {
      assert Saved(s, t);
    }
  }

  lemma FinishRecords(s: State, code: int)
    requires Recorded(s) && s.self != null && s.self in s.th
    ensures Recorded(Finish(s, code))
  {
    hide ContextOf;
  }

  /** `Base` says nothing about `exitTo` and the joins. */
  lemma ExitsIgnored(s: State, th: map<Thread, Fields>, joins: map<Thread, Thread>)
    requires Base(s) && ButExits(s.th, th)
    ensures Base(s.(th := th, joins := joins))
  {
    hide Image, ContextOf, Links, Records, Parked, Guarded, Spaced;
    var u := s.(th := th, joins := joins);
    SameLinksBut(s.chain, s.th, th);
    LinksKept(s.chain, s.th, th);
    RecordsKept(s.chain, s.th, th, s.ctx, s.mainCtx);
    ParkedBut(s, th, joins);
    assert Unfinished(u) == Unfinished(s);
  }

  ghost predicate ButExits(th: map<Thread, Fields>, th': map<Thread, Fields>) {
    th'.Keys == th.Keys && forall t | t in th :: th'[t].(exitTo := null) == th[t].(exitTo := null)
  }

  lemma SameLinksBut(chain: seq<Thread>, th: map<Thread, Fields>, th': map<Thread, Fields>)
    requires ButExits(th, th')
    ensures SameLinks(chain, th, th')
  {
  }

  lemma RecordsKept(chain: seq<Thread>, th: map<Thread, Fields>, th': map<Thread, Fields>,
                    ctx: map<Thread, Context>, mainCtx: Context)
    requires Links(chain, th) && Records(chain, th, ctx, mainCtx) && SameLinks(chain, th, th')
    ensures Records(chain, th', ctx, mainCtx)
  {
    hide ContextOf;
  }

  lemma ParkedBut(s: State, th: map<Thread, Fields>, joins: map<Thread, Thread>)
    requires Parked(s) && Guarded(s) && Spaced(s) && ButExits(s.th, th)
    ensures var u := s.(th := th, joins := joins); Parked(u) && Guarded(u) && Spaced(u)
  {
    hide Image;
    var u := s.(th := th, joins := joins);
    forall o | o in u.th && o != u.self && !u.th[o].finished ensures Saved(u, o) {
      assert Saved(s, o);
    }
  }

  lemma NoteJoinBase(s: State, t: Thread)
    requires Base(s) && s.self != null && t in s.th
    ensures Base(NoteJoin(s, t))
  {
    hide Base;
    ExitsIgnored(s, NoteJoin(s, t).th, NoteJoin(s, t).joins);
  }

  lemma EndJoinBase(s: State, t: Thread)
    requires Base(s) && s.self != null && t in s.th
    ensures Base(EndJoin(s, t))
  {
    hide Base;
    ExitsIgnored(s, EndJoin(s, t).th, EndJoin(s, t).joins);
  }

  /** Joins only depend on who is current, who is on the chain, and two fields. */
  ghost predicate SameJoins(th: map<Thread, Fields>, th': map<Thread, Fields>) {
    && th'.Keys == th.Keys
    && forall t | t in th :: th'[t].exitTo == th[t].exitTo && th'[t].finished == th[t].finished
  }

  lemma JoinsMove(self: Thread?, chain: seq<Thread>, th: map<Thread, Fields>, joins: map<Thread, Thread>,
                  self': Thread?, chain': seq<Thread>, th': map<Thread, Fields>)
    requires Joins(self, chain, th, joins) && SameJoins(th, th')
    requires self == null || self !in joins
    requires self' == null || self' !in joins
    requires forall t | t in chain' :: t in chain || t == self'
    ensures Joins(self', chain', th', joins)
  {
    forall j | j in joins ensures Waiting(self', chain', th', j, joins[j]) {
      assert Waiting(self, chain, th, j, joins[j]);
    }
  }

  // ---------- every operation keeps the invariant ----------

  lemma CallKeeps(s: State, to: Thread, data: int, ret: int)
    requires Inv(s) && Room(s) && Free(s) && Callable(s, to) && to !in s.joins
    ensures s.self != null ==> s.self in s.th
    ensures Inv(Call(s, to, data, ret))
    ensures to in s.ctx && Call(s, to, data, ret).r == Resumed(s.ctx[to], data)
  {
    hide Base, Joins, Save;
    BaseHasSelf(s);
    CallBase(s, to, data, ret);
    SaveSame(s, ret);
    JoinsMove(s.self, s.chain, s.th, s.joins, to, s.chain + [to], Call(s, to, data, ret).th);
  }

  lemma BaseHasSelf(s: State)
    requires Base(s)
    ensures s.self != null ==> s.self in s.th && s.chain != [] && s.self == s.chain[|s.chain| - 1]
    ensures s.self == null ==> s.chain == []
  {
    SelfInChain(s);
  }

  lemma SaveSame(s: State, ret: int)
    requires s.self != null ==> s.self in s.th
    ensures SameJoins(s.th, Save(s, ret).th) && Save(s, ret).joins == s.joins && Save(s, ret).th.Keys == s.th.Keys
  {
  }

  lemma TailCallKeeps(s: State, to: Thread, data: int, ret: int)
    requires Inv(s) && Room(s) && Free(s) && Callable(s, to) && to !in s.joins && s.self != null
    ensures s.self in s.th && s.chain != [] && Inv(TailCall(s, to, data, ret))
    ensures to in s.ctx && TailCall(s, to, data, ret).r == Resumed(s.ctx[to], data)
  {
    hide Base, Joins, Save;
    BaseHasSelf(s);
    TailCallBase(s, to, data, ret);
    SaveSame(s, ret);
    JoinsMove(s.self, s.chain, s.th, s.joins, to, s.chain[..|s.chain| - 1] + [to], TailCall(s, to, data, ret).th);
  }

  lemma YieldKeeps(s: State, data: int, ret: int)
    requires Inv(s) && Room(s) && Free(s) && s.self != null
    ensures s.self in s.th && s.chain != [] && Inv(Yield(s, data, ret))
    ensures var to := Below(s.chain, |s.chain| - 1);
            && Yield(s, data, ret).self == to && (to != null ==> to in s.ctx)
            && Yield(s, data, ret).r == Resumed(if to != null then s.ctx[to] else s.mainCtx, data)
  {
    hide Base, Joins, Save;
    BaseHasSelf(s);
    YieldBase(s, data, ret);
    SaveSame(s, ret);
    BelowIsOther(s);
    var to := Below(s.chain, |s.chain| - 1);
    NotWaiting(s, to);
    JoinsMove(s.self, s.chain, s.th, s.joins, to, s.chain[..|s.chain| - 1], Yield(s, data, ret).th);
  }

  /** A thread of the chain, other than the current one, is not waiting in a join. */
  lemma NotWaiting(s: State, t: Thread?)
    requires Joined(s) && t != s.self && (t == null || t in s.chain)
    ensures t == null || t !in s.joins
  {
    assert t in s.joins ==> Waiting(s.self, s.chain, s.th, t, s.joins[t]);
  }

  /** A target that has not finished, is not waited for, and is not the current thread can be joined. */
  lemma WaitKeeps(s: State, t: Thread, ret: int)
    requires Inv(s) && Room(s) && Free(s) && s.self != null
    requires t in s.th && t != s.self && !s.th[t].finished && s.th[t].exitTo == null
    ensures s.self in s.th && s.chain != [] && Inv(Wait(s, t, ret))
    ensures var to := Below(s.chain, |s.chain| - 1);
            && Wait(s, t, ret).self == to && (to != null ==> to in s.ctx)
            && Wait(s, t, ret).r == Resumed(if to != null then s.ctx[to] else s.mainCtx, 0)
  {
    hide Base, Joins, Save, Below;
    BaseHasSelf(s);
    var n := NoteJoin(s, t);
    NoteJoinBase(s, t);
    RoomSame(s, n);
    YieldBase(n, 0, ret);
    SaveSame(n, ret);
    BelowIsOther(n);
    var to := Below(s.chain, |s.chain| - 1);
    BelowNotWaiting(s, to);
    WaitJoins(s, t, to, Wait(s, t, ret).th);
  }

  lemma RoomSame(s: State, n: State)
    requires Room(s) && n.self == s.self && n.main == s.main && n.r == s.r
    ensures Room(n)
  {
  }

  lemma BelowNotWaiting(s: State, to: Thread?)
    requires Base(s) && Joined(s) && s.chain != [] && to == Below(s.chain, |s.chain| - 1)
    ensures to == null || to !in s.joins
  {
    BelowIsOther(s);
    NotWaiting(s, to);
  }

  lemma WaitJoins(s: State, t: Thread, to: Thread?, th: map<Thread, Fields>)
    requires Inv(s) && Free(s) && s.self != null && s.chain != [] && to != s.self && (to == null || to !in s.joins)
    requires t in s.th && t != s.self && !s.th[t].finished && s.th[t].exitTo == null && s.self in s.th
    requires SameJoins(NoteJoin(s, t).th, th)
    ensures Joins(to, s.chain[..|s.chain| - 1], th, s.joins[s.self := t])
  {
    hide Recorded, Parked, Guarded, Apart;
    var rest, joins := s.chain[..|s.chain| - 1], s.joins[s.self := t];
    SelfInChain(s);
    assert s.self !in rest;
    forall j | j in joins ensures Waiting(to, rest, th, j, joins[j]) {
      if j != s.self {
        assert Waiting(s.self, s.chain, s.th, j, s.joins[j]);
      }
    }
  }

  /** `s` with other registers. */
  ghost predicate Moved(s: State, m: State) {
    m == s.(r := m.r)
  }

  /** An exit, once the thread that leaves is marked finished. */
  lemma LeaveKeeps(s: State, m: State, code: int, ret: int)
    requires Inv(s) && Free(s) && Moved(s, m) && Room(m) && s.self != null
    requires s.self in s.th && Base(Finish(m, code))
    ensures s.chain != []
    ensures s.th[s.self].exitTo != null ==> s.th[s.self].exitTo in s.th
    ensures Inv(Exit(m, code, ret))
    ensures var j, to := s.th[s.self].exitTo, Below(s.chain, |s.chain| - 1);
            var next := if j != null then j else to;
            && Exit(m, code, ret).self == next && (next != null ==> next in s.ctx)
            && Exit(m, code, ret).r == Resumed(if next != null then s.ctx[next] else s.mainCtx, 0)
  {
    hide Base, Joins, Save, Below;
    BaseHasSelf(s);
    var f, j, to := Finish(m, code), s.th[s.self].exitTo, Below(s.chain, |s.chain| - 1);
    RoomSame(m, f);
    SaveSame(f, ret);
    if j != null {
      JoinerIsCallable(s, f, code);
      TailCallBase(f, j, 0, ret);
      ExitJoins(s, code, j, s.chain[..|s.chain| - 1] + [j], Exit(m, code, ret).th);
    } else {
      YieldBase(f, 0, ret);
      BelowIsOther(s);
      BelowNotWaiting(s, to);
      ExitJoins(s, code, to, s.chain[..|s.chain| - 1], Exit(m, code, ret).th);
    }
  }

  lemma ExitKeeps(s: State, code: int, ret: int)
    requires Inv(s) && Room(s) && Free(s) && s.self != null
    ensures s.self in s.th && s.chain != []
    ensures s.th[s.self].exitTo != null ==> s.th[s.self].exitTo in s.th
    ensures Inv(Exit(s, code, ret))
    ensures var j, to := s.th[s.self].exitTo, Below(s.chain, |s.chain| - 1);
            var next := if j != null then j else to;
            && Exit(s, code, ret).self == next && (next != null ==> next in s.ctx)
            && Exit(s, code, ret).r == Resumed(if next != null then s.ctx[next] else s.mainCtx, 0)
  {
    hide Inv, Exit, Finish, Room, Free, Below;
    FinishBase(s, code);
    LeaveKeeps(s, s, code, ret);
  }

  /** The current thread's function is about to return: the stack pointer is where it was entered. */
  ghost predicate Returning(s: State) {
    s.self != null && s.r.rsp == EntryContext(s.self.addr, 0).rsp
  }

  /** A return instruction. */
  function Landed(s: State): State {
    s.(r := s.r.(rsp := s.r.rsp + 8, rip := Word(s.mem, s.r.rsp)))
  }

  /**
  A thread's function that returns lands in `__morestack`, with the stack pointer at the thread's
  structure, aligned; there is room for the call of `cthread_exit` that follows.
  */
  lemma FunctionReturns(s: State)
    requires Inv(s) && Returning(s)
    ensures Landed(s).r.rip == MORESTACK + 1
    ensures Landed(s).r.rsp == s.self.addr && s.self.addr % 16 == 0 && Room(Landed(s))
  {
    hide Parked, Joins, Records;
    SelfInChain(s);
  }

  lemma LandedBase(s: State, code: int)
    requires Inv(s) && Returning(s)
    ensures s.self in s.th && Base(Finish(Landed(s), code))
  {
    hide Image, Recorded, Guarded, Saved, MainSaved;
    SelfInChain(s);
    var t := Finish(Landed(s), code);
    assert Unfinished(t) == Unfinished(s) - {s.self};
    FinishParks(s, code);
    FinishRecords(s, code);
    LandedSame(s, code);
  }

  lemma LandedSame(s: State, code: int)
    requires s.self != null && s.self in s.th
    ensures var f, t := Finish(s, code), Finish(Landed(s), code);
            && t == f.(r := t.r)
            && (Parked(f) ==> Parked(t)) && (Guarded(f) ==> Guarded(t)) && (Recorded(f) ==> Recorded(t))
  {
    hide Image;
    var f, t := Finish(s, code), Finish(Landed(s), code);
    assert t.th == f.th;
    if Parked(f) {
      forall u | u in t.th && u != t.self && !t.th[u].finished ensures Saved(t, u) {
        assert Saved(f, u);
      }
    }
  }

  /** `__morestack`: the function's result becomes the exit code. */
  lemma ReturnKeeps(s: State, ret: int)
    requires Inv(s) && Free(s) && Returning(s)
    ensures s.self in s.th && s.chain != []
    ensures s.th[s.self].exitTo != null ==> s.th[s.self].exitTo in s.th
    ensures Inv(Exit(Landed(s), s.r.rax, ret))
    ensures var j, to := s.th[s.self].exitTo, Below(s.chain, |s.chain| - 1);
            var next := if j != null then j else to;
            && Exit(Landed(s), s.r.rax, ret).self == next && (next != null ==> next in s.ctx)
            && Exit(Landed(s), s.r.rax, ret).r == Resumed(if next != null then s.ctx[next] else s.mainCtx, 0)
  {
    hide Inv, Exit, Finish, Room, Free, Below, Returning;
    FunctionReturns(s);
    LandedBase(s, s.r.rax);
    LeaveKeeps(s, Landed(s), s.r.rax, ret);
  }

  lemma JoinerIsCallable(s: State, f: State, code: int)
    requires Inv(s) && Free(s) && s.self != null && s.self in s.th && s.th[s.self].exitTo != null
    requires f.self == s.self && f.chain == s.chain && f.th == Finish(s, code).th
    ensures Callable(f, s.th[s.self].exitTo)
  {
    hide Base;
    var j := s.th[s.self].exitTo;
    assert Waiting(s.self, s.chain, s.th, j, s.joins[j]);
  }

  lemma ExitJoins(s: State, code: int, to: Thread?, chain: seq<Thread>, th: map<Thread, Fields>)
    requires Inv(s) && Free(s) && s.self != null && s.self in s.th
    requires SameJoins(Finish(s, code).th, th)
    requires forall t | t in chain :: t in s.chain || t == to
    requires if s.th[s.self].exitTo != null then to == s.th[s.self].exitTo else to == null || to !in s.joins
    ensures Joins(to, chain, th, s.joins)
  {
    hide Base;
    forall j | j in s.joins ensures Waiting(to, chain, th, j, s.joins[j]) {
      assert Waiting(s.self, s.chain, s.th, j, s.joins[j]);
    }
  }

  /** The assertion after the yield of `cthread_join` holds, and the join is over. */
  lemma EndJoinKeeps(s: State)
    requires Inv(s) && s.self != null && s.self in s.joins
    ensures s.joins[s.self] in s.th && s.th[s.joins[s.self]].finished
    ensures Inv(EndJoin(s, s.joins[s.self])) && Free(EndJoin(s, s.joins[s.self]))
  {
    hide Base;
    var t := s.joins[s.self];
    BaseHasSelf(s);
    assert Waiting(s.self, s.chain, s.th, s.self, t);
    EndJoinBase(s, t);
    var u := EndJoin(s, t);
    forall j | j in u.joins ensures Waiting(u.self, u.chain, u.th, j, u.joins[j]) {
      assert Waiting(s.self, s.chain, s.th, j, s.joins[j]);
    }
  }

  // ---------- creation and computation ----------

  /** `create_cthread` */
  function Create(s: State, to: Thread, fn: int): State {
    s.(th := s.th[to := Fresh(to.addr - 64)], mem := Prepared(s.mem, to.addr, fn),
       ctx := s.ctx[to := EntryContext(to.addr, fn)], numThreads := s.numThreads + 1)
  }

  /** The new thread's memory overlaps no other stack. */
  ghost predicate SpaceFor(s: State, to: Thread) {
    to !in s.th && to.addr % 16 == 0 && SpaceAt(s, to.lo, to.addr)
  }

  ghost predicate SpaceAt(s: State, lo: int, addr: int) {
    && lo + 64 <= addr
    && (forall t | t in s.th :: t.addr + SIZEOF_CTHREAD <= lo || addr + SIZEOF_CTHREAD <= t.lo)
    && (addr + SIZEOF_CTHREAD <= s.main.lo || s.main.hi <= lo)
  }

  lemma CreateSaves(s: State, to: Thread, fn: int)
    requires Base(s) && SpaceFor(s, to)
    ensures Parked(Create(s, to, fn)) && Guarded(Create(s, to, fn))
  {
    hide Image, Prepared, Links, Records;
    var u := Create(s, to, fn);
    EntryIsAligned(s.mem, to.addr, fn);
    forall t | t in u.th && t != u.self && !u.th[t].finished ensures Saved(u, t) {
      if t != to {
        assert Saved(s, t);
        ImageFrame(s.mem, u.mem, s.th[t].stack, s.ctx[t]);
      }
    }
    if s.self != null {
      ImageFrame(s.mem, u.mem, s.mainStack, s.mainCtx);
    }
  }

  lemma CreateLinks(s: State, to: Thread, fn: int)
    requires Base(s) && to !in s.th
    ensures var u := Create(s, to, fn); Chained(u) && Recorded(u) && to !in s.chain
  {
    hide Parked, Guarded, Apart, Prepared, EntryContext;
    var u := Create(s, to, fn);
    assert to !in s.chain;
    forall i | 0 <= i < |s.chain|
      ensures ContextOf(u.ctx, u.mainCtx, Below(s.chain, i)) == ContextOf(s.ctx, s.mainCtx, Below(s.chain, i))
    {
    }
  }

  lemma CreateSpaces(s: State, to: Thread, fn: int)
    requires Apart(s) && SpaceFor(s, to)
    ensures Apart(Create(s, to, fn))
  {
    hide Prepared;
  }

  lemma CreateKeeps(s: State, to: Thread, fn: int)
    requires Inv(s) && SpaceFor(s, to)
    ensures Inv(Create(s, to, fn)) && Callable(Create(s, to, fn), to) && to !in s.joins
  {
    hide Parked, Guarded, Links, Records, Prepared, Apart, Joins;
    var u := Create(s, to, fn);
    CreateSaves(s, to, fn);
    CreateLinks(s, to, fn);
    CreateSpaces(s, to, fn);
    assert Unfinished(u) == Unfinished(s) + {to};
    CreateJoins(s, to, fn);
    BaseHasSelf(s);
  }

  lemma CreateJoins(s: State, to: Thread, fn: int)
    requires Joined(s) && to !in s.th
    ensures Joined(Create(s, to, fn)) && to !in s.joins
  {
    hide Prepared;
    var u := Create(s, to, fn);
    assert to in s.joins ==> Waiting(s.self, s.chain, s.th, to, s.joins[to]);
    forall j | j in u.joins ensures Waiting(u.self, u.chain, u.th, j, u.joins[j]) {
      assert Waiting(s.self, s.chain, s.th, j, s.joins[j]);
    }
  }

  /**
  Running code: registers change, and memory does, also on the stacks of parked threads, where
  others may have left what they use; but no saved context changes, and no return address of a
  thread's function.
  */
  ghost predicate Computes(s: State, r: Regs, mem: Memory) {
    && Low(s) <= r.rsp <= High(s)
    && (forall t | t in s.th && !s.th[t].finished :: Word(mem, t.addr - 8) == Word(s.mem, t.addr - 8))
    && (forall t, a | t in s.th && !s.th[t].finished && t != s.self && s.th[t].stack <= a < s.th[t].stack + IMAGE ::
          Word(mem, a) == Word(s.mem, a))
    && (s.self != null ==> forall a | s.mainStack <= a < s.mainStack + IMAGE :: Word(mem, a) == Word(s.mem, a))
  }

  lemma ComputeKeeps(s: State, r: Regs, mem: Memory)
    requires Inv(s) && Computes(s, r, mem)
    ensures Inv(s.(r := r, mem := mem))
  {
    hide Image, Links, Records, Joins;
    var u := s.(r := r, mem := mem);
    assert Unfinished(u) == Unfinished(s);
    forall t | t in u.th && t != u.self && !u.th[t].finished ensures Saved(u, t) {
      assert Saved(s, t);
      ImageFrame(s.mem, mem, s.th[t].stack, s.ctx[t]);
    }
    if s.self != null {
      ImageFrame(s.mem, mem, s.mainStack, s.mainCtx);
    }
  }

  /** The caller of a finished thread that no join still asks about takes back its memory. */
  function Reap(s: State, t: Thread): State {
    s.(th := s.th - {t})
  }

  ghost predicate Reapable(s: State, t: Thread) {
    t in s.th && s.th[t].finished && forall j | j in s.joins :: s.joins[j] != t
  }

  lemma ReapKeeps(s: State, t: Thread)
    requires Inv(s) && Reapable(s, t)
    ensures Inv(Reap(s, t)) && t != s.self
  {
    hide Image, Saved, Links, Records, Joins, Waiting, Guarded, Parked;
    OffChain(s, t);
    assert Unfinished(Reap(s, t)) == Unfinished(s);
    ReapParks(s, t);
    ReapLinks(s, t);
    ReapJoins(s, t);
  }

  lemma OffChain(s: State, t: Thread)
    requires Inv(s) && t in s.th && s.th[t].finished
    ensures t !in s.chain && t != s.self && (s.self != null ==> s.self in s.th && !s.th[s.self].finished)
  {
    hide Parked, Apart, Recorded, Guarded, Joins;
    SelfInChain(s);
  }

  lemma ReapParks(s: State, t: Thread)
    requires Parked(s) && Guarded(s)
    ensures Parked(Reap(s, t)) && Guarded(Reap(s, t))
  {
    hide Image;
    var u := Reap(s, t);
    forall o | o in u.th && o != u.self && !u.th[o].finished ensures Saved(u, o) {
      assert Saved(s, o);
    }
  }

  lemma ReapLinks(s: State, t: Thread)
    requires Chained(s) && Recorded(s) && t !in s.chain
    ensures Chained(Reap(s, t)) && Recorded(Reap(s, t))
  {
    hide ContextOf, Below;
  }

  lemma ReapJoins(s: State, t: Thread)
    requires Joined(s) && Reapable(s, t)
    ensures Joined(Reap(s, t))
  {
    var u := Reap(s, t);
    forall j | j in u.joins ensures Waiting(u.self, u.chain, u.th, j, u.joins[j]) {
      assert Waiting(s.self, s.chain, s.th, j, s.joins[j]);
    }
  }

  // ---------- runs ----------

  /** A step of the system: one of the operations, by the current thread, or its own code. */
  datatype Op =
    | OpCompute(r: Regs, mem: Memory)
    | OpCall(to: Thread, data: int, ret: int)
    | OpTailCall(to: Thread, data: int, ret: int)
    | OpYield(data: int, ret: int)
    | OpWait(t: Thread, ret: int)
    | OpEndJoin
    | OpExit(code: int, ret: int)
    | OpReturn(ret: int)
    | OpReap(t: Thread)
    | OpStart(to: Thread, fn: int, data: int, ret: int)

  /** What the source asks of the caller of each operation. */
  ghost predicate Legal(s: State, op: Op) {
    match op
    case OpCompute(r, mem) => Computes(s, r, mem)
    case OpCall(to, _, _) => Room(s) && Free(s) && Callable(s, to) && to !in s.joins
    case OpTailCall(to, _, _) => Room(s) && Free(s) && Callable(s, to) && to !in s.joins && s.self != null
    case OpYield(_, _) => Room(s) && Free(s) && s.self != null
    case OpWait(t, _) =>
      Room(s) && Free(s) && s.self != null && t in s.th && t != s.self && !s.th[t].finished && s.th[t].exitTo == null
    case OpEndJoin => s.self != null && s.self in s.joins
    case OpExit(_, _) => Room(s) && Free(s) && s.self != null
    case OpReturn(_) => Free(s) && Returning(s)
    case OpReap(t) => Free(s) && Reapable(s, t)
    case OpStart(to, _, _, _) => Room(s) && Free(s) && SpaceFor(s, to)
  }

  ghost function Next(s: State, op: Op): State
    requires Inv(s) && Legal(s, op)
  {
    BaseHasSelf(s);
    match op
    case OpCompute(r, mem) => s.(r := r, mem := mem)
    case OpCall(to, data, ret) => Call(s, to, data, ret)
    case OpTailCall(to, data, ret) => TailCall(s, to, data, ret)
    case OpYield(data, ret) => Yield(s, data, ret)
    case OpWait(t, ret) => Wait(s, t, ret)
    case OpEndJoin => EndJoinKeeps(s); EndJoin(s, s.joins[s.self])
    case OpExit(code, ret) => ExitKeeps(s, code, ret); Exit(s, code, ret)
    case OpReturn(ret) => ReturnKeeps(s, ret); Exit(Landed(s), s.r.rax, ret)
    case OpReap(t) => Reap(s, t)
    case OpStart(to, fn, data, ret) => Call(Create(s, to, fn), to, data, ret)
  }

  /** Any part of the memory of a finished thread can be a new thread's, once it was taken back. */
  lemma ReusedStack(s: State, t: Thread, to: Thread, fn: int, data: int, ret: int)
    requires Inv(s) && Room(s) && Legal(s, OpReap(t)) && to !in s.th
    requires t.lo <= to.lo && to.lo + 64 <= to.addr <= t.addr && to.addr % 16 == 0
    ensures Inv(Next(s, OpReap(t))) && Legal(Next(s, OpReap(t)), OpStart(to, fn, data, ret))
  {
    hide Parked, Recorded, Guarded, Chained, Joins;
    ReapKeeps(s, t);
  }

  /** The data a switch passes to the thread it resumes. */
  function Passed(op: Op): int {
    match op
    case OpCall(_, data, _) => data
    case OpTailCall(_, data, _) => data
    case OpYield(data, _) => data
    case OpStart(_, _, data, _) => data
    case _ => 0
  }

  lemma StartKeeps(s: State, to: Thread, fn: int, data: int, ret: int)
    requires Inv(s) && Room(s) && Free(s) && SpaceFor(s, to)
    ensures var u := Create(s, to, fn);
            && (u.self != null ==> u.self in u.th)
            && Inv(Call(u, to, data, ret)) && Call(u, to, data, ret).r == Resumed(EntryContext(to.addr, fn), data)
  {
    hide Inv, Call, Callable;
    CreateKeeps(s, to, fn);
    CallKeeps(Create(s, to, fn), to, data, ret);
  }

  lemma NextKeeps(s: State, op: Op)
    requires Inv(s) && Legal(s, op)
    ensures Inv(Next(s, op))
  {
    hide Inv, Call, TailCall, Yield, Wait, Exit, EndJoin, Create, Callable, SpaceFor, Computes, Free, Room;
    match op {
      case OpCompute(r, mem) => ComputeKeeps(s, r, mem);
      case OpCall(to, data, ret) => CallKeeps(s, to, data, ret);
      case OpTailCall(to, data, ret) => TailCallKeeps(s, to, data, ret);
      case OpYield(data, ret) => YieldKeeps(s, data, ret);
      case OpWait(t, ret) => WaitKeeps(s, t, ret);
      case OpEndJoin => EndJoinKeeps(s);
      case OpExit(code, ret) => ExitKeeps(s, code, ret);
      case OpReturn(ret) => ReturnKeeps(s, ret);
      case OpReap(t) => ReapKeeps(s, t);
      case OpStart(to, fn, data, ret) => StartKeeps(s, to, fn, data, ret);
    }
  }

  /** The operations after which the current thread waits to be resumed, and where it will return to. */
  ghost predicate Suspends(op: Op) {
    op.OpCall? || op.OpTailCall? || op.OpYield? || op.OpWait? || op.OpStart?
  }

  /** Suspending saves the context of the call, of a thread or of the main program. */
  lemma SuspendedContext(s: State, op: Op)
    requires Inv(s) && Legal(s, op) && Suspends(op)
    ensures ContextOf(Next(s, op).ctx, Next(s, op).mainCtx, s.self) == ContextAt(s.r, op.ret)
    ensures s.self != null ==> s.self in Next(s, op).th && !Next(s, op).th[s.self].finished
  {
    hide Base, Joins, Computes, SpaceFor, Callable;
    BaseHasSelf(s);
  }

  /** What any step does to a parked thread: it stays as it is, or it resumes where it was saved. */
  lemma ParkedStep(s: State, op: Op, t: Thread)
    requires Inv(s) && Legal(s, op) && t in s.th && !s.th[t].finished && t != s.self
    ensures t in s.ctx
    ensures t in Next(s, op).th && !Next(s, op).th[t].finished && t in Next(s, op).ctx
    ensures Next(s, op).self != t ==> Next(s, op).ctx[t] == s.ctx[t]
    ensures Next(s, op).self == t ==> Next(s, op).r == Resumed(s.ctx[t], Passed(op))
  {
    hide Base, Joins, Pushed, Prepared, ContextAt, EntryContext, Resumed, Image;
    hide Callable, Computes, Free, Room, Returning, Reapable;
    BaseHasSelf(s);
    SavedHasContext(s, t);
    KeptThreads(s, op, t);
    match op {
      case OpCompute(r, mem) =>
      case OpCall(to, data, ret) => CallKeeps(s, to, data, ret);
      case OpTailCall(to, data, ret) => TailCallKeeps(s, to, data, ret);
      case OpYield(data, ret) => YieldKeeps(s, data, ret);
      case OpWait(o, ret) => WaitKeeps(s, o, ret);
      case OpEndJoin => EndJoinKeeps(s);
      case OpExit(code, ret) => ExitKeeps(s, code, ret);
      case OpReturn(ret) => ReturnKeeps(s, ret);
      case OpReap(t) => ReapKeeps(s, t);
      case OpStart(to, fn, data, ret) => StartKeeps(s, to, fn, data, ret);
    }
  }

  /** No step forgets a parked thread, finishes it, or touches its saved context. */
  lemma KeptThreads(s: State, op: Op, t: Thread)
    requires Inv(s) && Legal(s, op) && t in s.th && !s.th[t].finished && t != s.self && t in s.ctx
    ensures t in Next(s, op).th && !Next(s, op).th[t].finished
    ensures t in Next(s, op).ctx && Next(s, op).ctx[t] == s.ctx[t]
  {
    hide Base, Joins, Pushed, Prepared, Computes;
  }

  /** What any step of a thread does to the main program, which waits below. */
  lemma MainStep(s: State, op: Op)
    requires Inv(s) && Legal(s, op) && s.self != null
    ensures Next(s, op).mainCtx == s.mainCtx
    ensures Next(s, op).self == null ==> Next(s, op).r == Resumed(s.mainCtx, Passed(op))
  {
    BaseHasSelf(s);
    MainKept(s, op);
    hide Base, Joins, Call, TailCall, Yield, Wait, Exit, EndJoin, Create, Landed;
    hide Callable, SpaceFor, Computes, Free, Room;
    match op {
      case OpCompute(r, mem) =>
      case OpCall(to, data, ret) => CallKeeps(s, to, data, ret);
      case OpTailCall(to, data, ret) => TailCallKeeps(s, to, data, ret);
      case OpYield(data, ret) => YieldKeeps(s, data, ret);
      case OpWait(o, ret) => WaitKeeps(s, o, ret);
      case OpEndJoin => EndJoinKeeps(s);
      case OpExit(code, ret) => ExitKeeps(s, code, ret);
      case OpReturn(ret) => ReturnKeeps(s, ret);
      case OpReap(t) => ReapKeeps(s, t);
      case OpStart(to, fn, data, ret) => StartKeeps(s, to, fn, data, ret);
    }
  }

  lemma MainKept(s: State, op: Op)
    requires Inv(s) && Legal(s, op) && s.self != null
    ensures Next(s, op).mainCtx == s.mainCtx
    ensures (op.OpCall? || op.OpTailCall? || op.OpStart?) ==> Next(s, op).self == op.to
    ensures (op.OpCompute? || op.OpEndJoin?) ==> Next(s, op).self == s.self
  {
    hide Base, Joins, Pushed, Prepared, Computes;
  }

  /** `t` is parked: an unfinished thread that is not current, or the main program under a current thread. */
  ghost predicate IsParked(s: State, t: Thread?) {
    t != s.self && (t != null ==> t in s.th && !s.th[t].finished)
  }

  /** What any step does to whoever is parked: it stays as it is, or it resumes where it was saved. */
  lemma AnyStep(s: State, op: Op, t: Thread?)
    requires Inv(s) && Legal(s, op) && IsParked(s, t)
    ensures Next(s, op).self != t ==> IsParked(Next(s, op), t)
    ensures Next(s, op).self != t ==>
              ContextOf(Next(s, op).ctx, Next(s, op).mainCtx, t) == ContextOf(s.ctx, s.mainCtx, t)
    ensures Next(s, op).self == t ==> Next(s, op).r == Resumed(ContextOf(s.ctx, s.mainCtx, t), Passed(op))
  {
    hide Inv, Legal, Next;
    if t == null {
      MainStep(s, op);
    } else {
      ParkedStep(s, op, t);
    }
  }

  /** `ops` can be performed one after the other from `s`. */
  ghost predicate Runs(s: State, ops: seq<Op>)
    requires Inv(s)
    decreases |ops|
  {
    ops == [] || (Legal(s, ops[0]) && (NextKeeps(s, ops[0]); Runs(Next(s, ops[0]), ops[1..])))
  }

  ghost function After(s: State, ops: seq<Op>): State
    requires Inv(s) && Runs(s, ops)
    decreases |ops|
  {
    if ops == [] then s else NextKeeps(s, ops[0]); After(Next(s, ops[0]), ops[1..])
  }

  /** `t`, or the main program, is not running at any moment of the run before its end. */
  ghost predicate Away(s: State, ops: seq<Op>, t: Thread?)
    requires Inv(s) && Runs(s, ops)
    decreases |ops|
  {
    ops == [] || (s.self != t && (NextKeeps(s, ops[0]); Away(Next(s, ops[0]), ops[1..], t)))
  }

  lemma {:induction false} RunKeeps(s: State, ops: seq<Op>)
    requires Inv(s) && Runs(s, ops)
    ensures Inv(After(s, ops))
    decreases |ops|
  {
    hide Inv, Legal, Next;
    if ops != [] {
      NextKeeps(s, ops[0]);
      RunKeeps(Next(s, ops[0]), ops[1..]);
    }
  }

  /**
  Whatever a run does while thread `t`, or the main program, is parked, when it is resumed at the
  end of it, its registers are those it was saved with, and it is handed the data of the last switch.
  */
  lemma {:induction false} ParkedRun(s: State, ops: seq<Op>, t: Thread?)
    requires Inv(s) && Runs(s, ops) && ops != [] && Away(s, ops, t) && IsParked(s, t)
    requires After(s, ops).self == t
    ensures After(s, ops).r == Resumed(ContextOf(s.ctx, s.mainCtx, t), Passed(ops[|ops| - 1]))
    ensures var c := if t == null then s.mainCtx else ContextOf(s.ctx, s.mainCtx, t);
            After(s, ops).r == Regs(Passed(ops[|ops| - 1]), c.rbx, c.rbp, c.rsp, c.r12, c.r13, c.r14, c.r15, c.ret)
    decreases |ops|
  {
    hide Inv, Legal, Next, IsParked, Passed;
    NextKeeps(s, ops[0]);
    AnyStep(s, ops[0], t);
    if |ops| > 1 {
      AwayNow(s, ops, t);
      ParkedRun(Next(s, ops[0]), ops[1..], t);
    }
  }

  lemma AwayNow(s: State, ops: seq<Op>, t: Thread?)
    requires Inv(s) && Runs(s, ops) && |ops| > 1 && Away(s, ops, t)
    ensures Legal(s, ops[0]) && Next(s, ops[0]).self != t
  {
    hide Inv, Legal, Next;
    NextKeeps(s, ops[0]);
  }

  /**
  The switch round trip: a thread, or the main program, that suspends itself in a call that returns
  to `op.ret` is resumed, after any run of the others, with its stack pointer and callee-saved
  registers and at its return address, and the call returns the data passed to it.
  */
  lemma RoundTrip(s: State, op: Op, ops: seq<Op>)
    requires Inv(s) && Legal(s, op) && Suspends(op)
    requires Inv(Next(s, op)) && Runs(Next(s, op), ops) && ops != [] && Away(Next(s, op), ops, s.self)
    requires After(Next(s, op), ops).self == s.self
    ensures After(Next(s, op), ops).r == s.r.(rax := Passed(ops[|ops| - 1]), rip := op.ret)
  {
    hide Inv, Legal, Next, ContextOf, ContextAt, Resumed, Passed;
    SuspendedContext(s, op);
    ParkedRun(Next(s, op), ops, s.self);
    ResumedIsReturn(s.r, op.ret, Passed(ops[|ops| - 1]));
  }

  // ---------- what the fields say ----------

  /** The threads met by following `yieldTo` from `t`, at most `n` of them, the farthest first. */
  function Follow(th: map<Thread, Fields>, t: Thread?, n: nat): seq<Thread> {
    if t == null || t !in th || n == 0 then [] else Follow(th, th[t].yieldTo, n - 1) + [t]
  }

  /** The links from the current thread are the chain: they end at the main program and never cycle. */
  lemma LinksAreChain(s: State, n: nat)
    requires Inv(s) && n >= |s.chain|
    ensures Follow(s.th, s.self, n) == s.chain
  {
    FollowChain(s.chain, s.th, |s.chain|, n);
  }

  lemma {:induction false} FollowChain(chain: seq<Thread>, th: map<Thread, Fields>, i: nat, n: nat)
    requires Links(chain, th) && i <= |chain| && n >= i
    ensures Follow(th, Below(chain, i), n) == chain[..i]
    decreases i
  {
    if i > 0 {
      FollowChain(chain, th, i - 1, n - 1);
      assert chain[..i] == chain[..i - 1] + [chain[i - 1]];
    }
  }

  /** The words of a thread's structure that hold the caller record. */
  function StructWord(t: Thread, f: Fields, a: int): int {
    if a == t.addr + 8 then f.caller.stack
    else if a == t.addr + 16 then f.caller.prev
    else if a == t.addr + 24 then f.caller.ret
    else 0
  }

  /**
  The three words the unwinder reads around the frame pointer that `__morestack` runs with are
  the stack pointer, frame pointer and return address of whoever resumed the thread, which is
  what the switch saved on that stack.
  */
  lemma UnwinderRecovers(s: State, i: nat)
    requires Inv(s) && i < |s.chain|
    ensures s.chain[i] in s.th
    ensures var t, y := s.chain[i], Below(s.chain, i);
            var f, rbp := s.th[t], EntryContext(t.addr, 0).rbp;
            (y != null ==> y in s.th) &&
            var sp := if y == null then s.mainStack else s.th[y].stack;
            && StructWord(t, f, rbp - 8) == sp + 56
            && StructWord(t, f, rbp) == Word(s.mem, sp + 40)
            && StructWord(t, f, rbp + 8) == Word(s.mem, sp + 48)
  {
    hide Guarded, Joins, Apart;
    var y := Below(s.chain, i);
    SelfInChain(s);
    if y != null {
      assert Saved(s, y);
    }
  }

  /**
  The call stack, step by step: a call and a start push, a yield and a wait pop, a tail call replaces
  the top, and the end of a thread pops it or puts its joiner in its place.
  */
  lemma ChainMoves(s: State, op: Op)
    requires Inv(s) && Legal(s, op)
    ensures var n, u := |s.chain|, Next(s, op);
            match op
            case OpCall(to, _, _) => u.chain == s.chain + [to]
            case OpStart(to, _, _, _) => u.chain == s.chain + [to]
            case OpTailCall(to, _, _) => n > 0 && u.chain == s.chain[..n - 1] + [to]
            case OpYield(_, _) => n > 0 && u.chain == s.chain[..n - 1]
            case OpWait(_, _) => n > 0 && u.chain == s.chain[..n - 1]
            case OpExit(_, _) => n > 0 && s.self != null && s.self in s.th
                                 && u.chain == s.chain[..n - 1] + JoinerOf(s.th[s.self])
            case OpReturn(_) => n > 0 && s.self != null && s.self in s.th
                                && u.chain == s.chain[..n - 1] + JoinerOf(s.th[s.self])
            case _ => u.chain == s.chain
    ensures Next(s, op).self == if Next(s, op).chain == [] then null else Next(s, op).chain[|Next(s, op).chain| - 1]
  {
    hide Base, Joins, Pushed, Prepared, Computes, ContextAt, EntryContext, Next;
    BaseHasSelf(s);
    NextKeeps(s, op);
    BaseHasSelf(Next(s, op));
    ChainIs(s, op);
  }

  function JoinerOf(f: Fields): seq<Thread> {
    if f.exitTo == null then [] else [f.exitTo]
  }

  lemma ChainIs(s: State, op: Op)
    requires Inv(s) && Legal(s, op)
    requires s.self != null ==> s.self in s.th && s.chain != []
    ensures var n, u := |s.chain|, Next(s, op);
            match op
            case OpCall(to, _, _) => u.chain == s.chain + [to]
            case OpStart(to, _, _, _) => u.chain == s.chain + [to]
            case OpTailCall(to, _, _) => u.chain == s.chain[..n - 1] + [to]
            case OpYield(_, _) => u.chain == s.chain[..n - 1]
            case OpWait(_, _) => u.chain == s.chain[..n - 1]
            case OpExit(_, _) => u.chain == s.chain[..n - 1] + JoinerOf(s.th[s.self])
            case OpReturn(_) => u.chain == s.chain[..n - 1] + JoinerOf(s.th[s.self])
            case _ => u.chain == s.chain
  {
    hide Base, Joins, Pushed, Prepared, Computes, ContextAt, EntryContext;
  }

  /** Who is left: a start adds a thread; the end of one records its code, for good. */
  lemma CountMoves(s: State, op: Op)
    requires Inv(s) && Legal(s, op)
    ensures var u := Next(s, op);
            match op
            case OpStart(to, _, _, _) => u.numThreads == s.numThreads + 1 && to in u.th && !u.th[to].finished
            case OpExit(code, _) =>
              && u.numThreads == s.numThreads - 1
              && s.self in u.th && u.th[s.self].finished && u.th[s.self].exitCode == code
            case OpReturn(_) =>
              && u.numThreads == s.numThreads - 1
              && s.self in u.th && u.th[s.self].finished && u.th[s.self].exitCode == s.r.rax
            case _ => u.numThreads == s.numThreads
    ensures forall t | t in s.th && s.th[t].finished && t in Next(s, op).th ::
              Next(s, op).th[t].finished && Next(s, op).th[t].exitCode == s.th[t].exitCode
  {
    hide Base, Joins, Exit, Landed, Pushed, Prepared, Computes, ContextAt, EntryContext, Resumed;
    BaseHasSelf(s);
    match op {
      case OpExit(code, ret) =>
        ExitKeeps(s, code, ret);
        ExitCounts(s, s, code, ret);
      case OpReturn(ret) =>
        ReturnKeeps(s, ret);
        ExitCounts(s, Landed(s), s.r.rax, ret);
      case _ =>
    }
  }

  lemma ExitCounts(s: State, m: State, code: int, ret: int)
    requires Inv(s) && Free(s) && s.self != null && s.self in s.th && s.chain != []
    requires m == s || m == Landed(s)
    requires s.th[s.self].exitTo != null ==> s.th[s.self].exitTo in s.th
    ensures var u := Exit(m, code, ret);
            && u.numThreads == s.numThreads - 1
            && s.self in u.th && u.th[s.self].finished && u.th[s.self].exitCode == code
            && forall t | t in s.th && s.th[t].finished && t != s.self ::
                 t in u.th && u.th[t].finished && u.th[t].exitCode == s.th[t].exitCode
  {
    hide Base, Joins, Pushed, ContextAt, Resumed;
    NoSelfJoin(s);
  }

  /** What a switch passes: the caller's data in `rax`, and nothing at a wait or at the end of a thread. */
  lemma DataArrives(s: State, op: Op)
    requires Inv(s) && Legal(s, op)
    ensures match op
            case OpCall(_, data, _) => Next(s, op).r.rax == data == Passed(op)
            case OpTailCall(_, data, _) => Next(s, op).r.rax == data == Passed(op)
            case OpYield(data, _) => Next(s, op).r.rax == data == Passed(op)
            case OpStart(_, _, data, _) => Next(s, op).r.rax == data == Passed(op)
            case OpCompute(r, mem) => Next(s, op).r == r && Next(s, op).mem == mem
            case OpEndJoin => Next(s, op).r == s.r
            case OpReap(_) => Next(s, op).r == s.r
            case _ => Next(s, op).r.rax == 0 == Passed(op)
  {
    hide Base, Joins, Pushed, Prepared, Computes, ContextAt, EntryContext;
    BaseHasSelf(s);
  }

  /**
  A thread's first entry: its function begins, with the argument, on a stack that is aligned as the
  ABI asks of a function's entry and whose top word leads to `__morestack`.
  */
  lemma StartEnters(s: State, to: Thread, fn: int, data: int, ret: int)
    requires Inv(s) && Legal(s, OpStart(to, fn, data, ret))
    ensures var u := Next(s, OpStart(to, fn, data, ret));
            && u.self == to && u.r == Regs(data, 0, to.addr + 16, to.addr - 8, 0, 0, 0, 0, fn)
            && (u.r.rsp + 8) % 16 == 0 && Word(u.mem, u.r.rsp) == MORESTACK + 1
  {
    hide Base, Joins, Call, Create, Pushed, Prepared, EntryContext, Resumed;
    BaseHasSelf(s);
    StartKeeps(s, to, fn, data, ret);
    EntryIsAligned(s.mem, to.addr, fn);
    StartSelf(s, to, fn, data, ret);
    GuardedAt(Next(s, OpStart(to, fn, data, ret)), to);
  }

  lemma StartSelf(s: State, to: Thread, fn: int, data: int, ret: int)
    requires s.self != null ==> s.self in s.th
    ensures Call(Create(s, to, fn), to, data, ret).self == to
    ensures to in Call(Create(s, to, fn), to, data, ret).th && !Call(Create(s, to, fn), to, data, ret).th[to].finished
  {
    hide Pushed, Prepared, EntryContext, ContextAt, Resumed;
  }

  lemma GuardedAt(s: State, t: Thread)
    requires Inv(s) && t in s.th && !s.th[t].finished
    ensures Word(s.mem, t.addr - 8) == MORESTACK + 1
  {
    hide Parked, Recorded, Chained, Apart, Joins;
  }

  // ---------- joins over runs ----------

  /** The current thread ends, with this exit code: by `cthread_exit`, or by returning from its function. */
  ghost predicate Ends(s: State, op: Op, code: int) {
    || (op.OpExit? && code == op.code)
    || (op.OpReturn? && code == s.r.rax)
  }

  /** A thread that ends hands over to the thread that waits for it, with its code and its resumer. */
  lemma JoinDelivers(s: State, op: Op, code: int)
    requires Inv(s) && Legal(s, op) && Ends(s, op, code) && s.self in s.th && s.th[s.self].exitTo != null
    ensures var u, c, j := Next(s, op), s.self, s.th[s.self].exitTo;
            && u.self == j && j in u.joins && u.joins[j] == c && j in u.th && c in u.th
            && u.th[c].finished && u.th[c].exitCode == code
            && u.th[j].yieldTo == s.th[c].yieldTo && u.th[j].caller == s.th[c].caller
  {
    hide Base, Pushed, ContextAt;
    BaseHasSelf(s);
    assert Waiting(s.self, s.chain, s.th, s.th[s.self].exitTo, s.self);
  }

  /** Until the join ends, all the resumed thread can do is compute, and nothing changes the exit code. */
  lemma JoinWaits(s: State, op: Op)
    requires Inv(s) && Legal(s, op) && s.self != null && s.self in s.joins
    ensures op.OpCompute? || op.OpEndJoin?
    ensures s.joins[s.self] in s.th && s.joins[s.self] in Next(s, op).th
    ensures Next(s, op).th[s.joins[s.self]].exitCode == s.th[s.joins[s.self]].exitCode
    ensures op.OpCompute? ==> Next(s, op).self == s.self && Next(s, op).joins == s.joins
  {
    hide Base, Computes;
    EndJoinKeeps(s);
  }

  /** While a thread waits off the chain, its target has not finished, and only the end of the target resumes it. */
  lemma JoinLasts(s: State, op: Op, j: Thread)
    requires Inv(s) && Legal(s, op) && j in s.joins && j != s.self
    ensures s.joins[j] in s.th && !s.th[s.joins[j]].finished
    ensures j in Next(s, op).joins && Next(s, op).joins[j] == s.joins[j]
    ensures Next(s, op).self == j ==> s.self == s.joins[j] && (op.OpExit? || op.OpReturn?)
  {
    hide Base, Pushed, Prepared, Computes, ContextAt, Call, TailCall, Yield, Wait, Exit, EndJoin, Create, Landed;
    BaseHasSelf(s);
    assert Waiting(s.self, s.chain, s.th, j, s.joins[j]);
    JoinsAre(s, op);
    NextSelf(s, op);
  }

  /** Only a wait begins a join, and only the end of a join ends it. */
  lemma JoinsAre(s: State, op: Op)
    requires Inv(s) && Legal(s, op)
    ensures Next(s, op).joins == match op
                                 case OpWait(t, _) => s.joins[s.self := t]
                                 case OpEndJoin => s.joins - {s.self}
                                 case _ => s.joins
  {
    hide Base, Joins, Pushed, Prepared, Computes, ContextAt;
    BaseHasSelf(s);
  }

  /** Who runs next: the thread called, a thread of the chain, or the joiner of the thread that ends. */
  lemma NextSelf(s: State, op: Op)
    requires Inv(s) && Legal(s, op)
    ensures var to := Next(s, op).self;
            || to == s.self || to == null || to in s.chain
            || ((op.OpCall? || op.OpTailCall? || op.OpStart?) && to == op.to)
            || ((op.OpExit? || op.OpReturn?) && s.self != null && s.self in s.th && s.th[s.self].exitTo == to)
  {
    hide Base, Joins, Pushed, Prepared, Computes, ContextAt, Call, TailCall, Yield, Wait, Exit, EndJoin, Create, Landed;
    BaseHasSelf(s);
    match op {
      case OpCompute(r, mem) =>
      case OpCall(to, data, ret) => CallSelf(s, to, data, ret);
      case OpTailCall(to, data, ret) => CallSelf(s, to, data, ret);
      case OpYield(data, ret) => YieldKeeps(s, data, ret);
      case OpWait(o, ret) => WaitKeeps(s, o, ret);
      case OpEndJoin => EndJoinKeeps(s); EndJoinSelf(s, s.joins[s.self]);
      case OpExit(code, ret) => ExitKeeps(s, code, ret);
      case OpReturn(ret) => ReturnKeeps(s, ret);
      case OpReap(t) => ReapKeeps(s, t);
      case OpStart(to, fn, data, ret) =>
        StartKeeps(s, to, fn, data, ret);
        CreateAdds(s, to, fn);
        CallSelf(Create(s, to, fn), to, data, ret);
    }
  }

  lemma CallSelf(s: State, to: Thread, data: int, ret: int)
    requires s.self != null ==> s.self in s.th
    ensures to in s.th ==> Call(s, to, data, ret).self == to
    ensures to in s.th && s.self != null && s.chain != [] ==> TailCall(s, to, data, ret).self == to
  {
  }

  lemma CreateAdds(s: State, to: Thread, fn: int)
    ensures to in Create(s, to, fn).th
  {
  }

  lemma EndJoinSelf(s: State, t: Thread)
    ensures t in s.th && s.self != null ==> EndJoin(s, t).self == s.self
  {
  }

  /** Step `i` of the run is the end of thread `t`, with exit code `code`. */
  ghost predicate EndsAt(s: State, ops: seq<Op>, i: nat, t: Thread, code: int)
    requires Inv(s) && Runs(s, ops) && i < |ops|
    decreases |ops|
  {
    if i == 0 then s.self == t && Ends(s, ops[0], code)
    else NextKeeps(s, ops[0]); EndsAt(Next(s, ops[0]), ops[1..], i - 1, t, code)
  }

  /** No step of the run is the end of the join `j` waits in. */
  ghost predicate Pending(s: State, ops: seq<Op>, j: Thread)
    requires Inv(s) && Runs(s, ops)
    decreases |ops|
  {
    ops == [] || ((s.self == j ==> !ops[0].OpEndJoin?) && (NextKeeps(s, ops[0]); Pending(Next(s, ops[0]), ops[1..], j)))
  }

  /** From the state after the wait: the target has not finished, or it has ended with its present exit code. */
  lemma {:induction false} JoinedEnds(s: State, ops: seq<Op>, j: Thread, t: Thread)
    requires Inv(s) && Runs(s, ops) && Pending(s, ops, j)
    requires j in s.joins && s.joins[j] == t && j != s.self
    ensures j in After(s, ops).joins && After(s, ops).joins[j] == t && t in After(s, ops).th
    ensures After(s, ops).self == j ==>
              exists i: nat | i < |ops| :: EndsAt(s, ops, i, t, After(s, ops).th[t].exitCode)
    decreases |ops|
  {
    hide Inv, Legal, Next, Ends;
    JoinHasTarget(s, j);
    if ops != [] {
      var u := Next(s, ops[0]);
      NextKeeps(s, ops[0]);
      JoinLasts(s, ops[0], j);
      if u.self == j {
        EndIsFirst(s, ops, j, t);
        RestComputes(u, ops[1..], j, t);
        assert EndsAt(s, ops, 0, t, u.th[t].exitCode);
      } else {
        JoinedEnds(u, ops[1..], j, t);
        if After(s, ops).self == j {
          var code := After(s, ops).th[t].exitCode;
          var i: nat :| i < |ops[1..]| && EndsAt(u, ops[1..], i, t, code);
          assert EndsAt(s, ops, i + 1, t, code);
        }
      }
    }
  }

  lemma JoinHasTarget(s: State, j: Thread)
    requires Inv(s) && j in s.joins
    ensures j in s.th && s.joins[j] in s.th
  {
    hide Base;
    assert Waiting(s.self, s.chain, s.th, j, s.joins[j]);
  }

  lemma EndIsFirst(s: State, ops: seq<Op>, j: Thread, t: Thread)
    requires Inv(s) && Runs(s, ops) && ops != [] && j in s.joins && s.joins[j] == t && j != s.self
    requires Next(s, ops[0]).self == j
    ensures s.self == t && t in Next(s, ops[0]).th && Ends(s, ops[0], Next(s, ops[0]).th[t].exitCode)
  {
    hide Base, Joins, Pushed, Prepared, Computes, ContextAt;
    var op := ops[0];
    JoinLasts(s, op, j);
    BaseHasSelf(s);
    EndCode(s, op);
  }

  lemma EndCode(s: State, op: Op)
    requires Inv(s) && Legal(s, op) && (op.OpExit? || op.OpReturn?) && s.self != null
    ensures s.self in Next(s, op).th && Ends(s, op, Next(s, op).th[s.self].exitCode)
  {
    hide Base, Joins, Pushed, ContextAt;
    BaseHasSelf(s);
    assert s.th[s.self].exitTo != s.self by { NoSelfJoin(s); }
  }

  lemma NoSelfJoin(s: State)
    requires Inv(s) && Free(s) && s.self != null && s.self in s.th
    ensures s.th[s.self].exitTo != s.self
  {
    hide Base;
  }

  /** The resumed joiner computes until the join ends. */
  lemma {:induction false} RestComputes(s: State, ops: seq<Op>, j: Thread, t: Thread)
    requires Inv(s) && Runs(s, ops) && Pending(s, ops, j)
    requires s.self == j && j in s.joins && s.joins[j] == t && t in s.th
    ensures After(s, ops).self == j && j in After(s, ops).joins && After(s, ops).joins[j] == t
    ensures t in After(s, ops).th && After(s, ops).th[t].exitCode == s.th[t].exitCode
    decreases |ops|
  {
    hide Inv, Legal, Next;
    if ops != [] {
      NextKeeps(s, ops[0]);
      JoinWaits(s, ops[0]);
      RestComputes(Next(s, ops[0]), ops[1..], j, t);
    }
  }

  /**
  A join over a whole run: between the wait for `t` and the end of that join, `t` has ended, by
  exit or by return, and the code it ended with is what the join finds.
  */
  lemma JoinReturns(s: State, t: Thread, ret: int, u: State, ops: seq<Op>, v: State)
    requires Inv(s) && Legal(s, OpWait(t, ret)) && s.self != null && u == Next(s, OpWait(t, ret))
    requires Inv(u) && Runs(u, ops) && Pending(u, ops, s.self) && v == After(u, ops)
    requires Inv(v) && v.self == s.self
    ensures s.self in v.joins && v.joins[s.self] == t && t in v.th && v.th[t].finished
    ensures Legal(v, OpEndJoin)
    ensures -0x8000_0000 <= ToInt(v.th[t].exitCode) < 0x8000_0000
    ensures (ToInt(v.th[t].exitCode) - v.th[t].exitCode) % TWO32 == 0
    ensures exists i: nat | i < |ops| ::
              && Runs(u, ops[..i])
              && var w := After(u, ops[..i]);
                 && w.self == t
                 && match ops[i]
                    case OpExit(code, _) => v.th[t].exitCode == code
                    case OpReturn(_) => v.th[t].exitCode == w.r.rax
                    case _ => false
  {
    hide *;
    WaitBegins(s, t, ret);
    JoinedEnds(u, ops, s.self, t);
    EndJoinKeeps(v);
    EndJoinLegal(v);
    ToIntIs(v.th[t].exitCode);
    var i: nat :| i < |ops| && EndsAt(u, ops, i, t, v.th[t].exitCode);
    EndsAtIs(u, ops, i, t, v.th[t].exitCode);
  }

  /** The step found by `EndsAt` is an exit with that code, or a return with it in `rax`. */
  lemma {:induction false} EndsAtIs(s: State, ops: seq<Op>, i: nat, t: Thread, code: int)
    requires Inv(s) && Runs(s, ops) && i < |ops| && EndsAt(s, ops, i, t, code)
    ensures Runs(s, ops[..i])
    ensures var w := After(s, ops[..i]);
            && w.self == t
            && match ops[i]
               case OpExit(c, _) => c == code
               case OpReturn(_) => w.r.rax == code
               case _ => false
    decreases |ops|
  {
    hide Inv, Legal, Next;
    if i > 0 {
      NextKeeps(s, ops[0]);
      EndsAtIs(Next(s, ops[0]), ops[1..], i - 1, t, code);
      assert ops[..i][1..] == ops[1..][..i - 1];
    }
  }

  lemma EndJoinLegal(s: State)
    ensures s.self != null && s.self in s.joins ==> Legal(s, OpEndJoin)
  {
  }

  lemma WaitBegins(s: State, t: Thread, ret: int)
    requires Inv(s) && Legal(s, OpWait(t, ret))
    ensures s.self != null
    ensures var u := Next(s, OpWait(t, ret)); s.self in u.joins && u.joins[s.self] == t && u.self != s.self
  {
    hide Base, Joins, Wait, Below;
    BaseHasSelf(s);
    JoinsAre(s, OpWait(t, ret));
    WaitKeeps(s, t, ret);
    BelowIsOther(s);
  }
}
