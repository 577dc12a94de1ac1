/**
The coroutine runtime of `cthread.c` over its threads, the main program's record and the machine.

Each method is a call of the library by the code now running; it returns when the library has
switched, that is in the thread then current.  `ret` is where the call returns to once its
thread is resumed.  The contracts state the whole new state by the functions of `Coroutines`.
*/
module CThread {
  import opened Probe
  import opened Switch
  import C = Coroutines

  class Runtime {
    var self: C.Thread?
    var mainStack: int
    var numThreads: int
    const cpu: Cpu
    const main: C.Region
    ghost var s: C.State

    /** The objects hold what `s` says. */
    ghost predicate Mirrors()
      reads this, cpu, s.th.Keys
    {
      && self == s.self && mainStack == s.mainStack && numThreads == s.numThreads
      && main == s.main && cpu.r == s.r && cpu.mem == s.mem
      && forall t | t in s.th :: t.Look() == s.th[t]
    }

    ghost predicate Valid()
      reads this, cpu, s.th.Keys
    {
      Mirrors() && C.Inv(s)
    }

    lemma Opened()
      ensures Valid() <==> Mirrors() && C.Inv(s)
      ensures Mirrors() ==> self == s.self && mainStack == s.mainStack && numThreads == s.numThreads
                            && main == s.main && cpu.r == s.r && cpu.mem == s.mem
                            && forall t | t in s.th :: t.Look() == s.th[t]
    {
    }

    lemma LookAt(t: C.Thread)
      requires Mirrors() && t in s.th
      ensures t.stack == s.th[t].stack && t.caller == s.th[t].caller && t.yieldTo == s.th[t].yieldTo
    {
    }

    /** `cthread_main_init`: no threads, and the main program running on its own stack. */
    constructor (main: C.Region, cpu: Cpu)
      requires main.lo <= cpu.r.rsp <= main.hi
      ensures Valid() && this.cpu == cpu && this.main == main
      ensures s.th == map[] && s.self == null && s.chain == []
    {
      self, mainStack, numThreads := null, 0, 0;
      this.cpu, this.main := cpu, main;
      var none := Context(0, 0, 0, 0, 0, 0, 0, 0);
      s := C.State(null, [], map[], main, 0, 0, cpu.r, cpu.mem, map[], none, map[]);
      new;
      assert C.Unfinished(s) == {};
    }

    /** The context that the switch finds at the stack of `to`. */
    lemma LoadImage(to: C.Thread?, ret: int)
      requires C.Base(s) && C.Room(s) && to != s.self && (to != null ==> to in s.th && !s.th[to].finished)
      ensures to != null ==> to in s.ctx && Image(Pushed(s.mem, s.r, ret), s.th[to].stack, s.ctx[to])
      ensures to == null ==> Image(Pushed(s.mem, s.r, ret), s.mainStack, s.mainCtx)
    {
      hide Image, Pushed, C.Base;
      C.BaseHasSelf(s);
      C.SaveSaves(s, ret);
      if to != null {
        C.SavedHasContext(s, to);
        assert C.Saved(C.Save(s, ret), to);
      }
    }

    /** The switch, with the save slot of the thread `from`, or of the main program. */
    method Jump(from: C.Thread?, data: int, load: int, ret: int, ghost c: Context) returns (caller: Caller)
      requires Image(Pushed(cpu.mem, cpu.r, ret), load, c)
      modifies this`mainStack, cpu, (if from == null then {} else {from})`stack
      ensures cpu.mem == Pushed(old(cpu.mem), old(cpu.r), ret) && cpu.r == Resumed(c, data)
      ensures caller == CallerOf(ContextAt(old(cpu.r), ret))
      ensures if from == null then mainStack == old(cpu.r).rsp - IMAGE
              else from.stack == old(cpu.r).rsp - IMAGE && mainStack == old(mainStack)
    {
      hide *;
      var saved;
      saved, caller := cpu.AsmSwitch(data, load, ret, c);
      if from != null {
        from.stack := saved;
      } else {
        mainStack := saved;
      }
    }

    /** `set_thread` and the switch to `to`, or to the main program, whose stack pointer is `load`. */
    method SwitchTo(to: C.Thread?, data: int, load: int, ret: int, ghost chain: seq<C.Thread>, ghost c: Context)
      returns (caller: Caller)
      requires Mirrors() && (s.self != null ==> s.self in s.th)
      requires Image(Pushed(s.mem, s.r, ret), load, c)
      requires c == (if to != null && to in s.ctx then s.ctx[to] else s.mainCtx)
      requires to != s.self && (to != null ==> to in s.ctx)
      modifies this`self, this`mainStack, this`s, cpu, s.th.Keys
      ensures Mirrors() && s == C.Enter(C.Save(old(s), ret), to, chain, data)
      ensures caller == CallerOf(ContextAt(old(s).r, ret))
    {
      hide Image, Pushed;
      var from := self;
      self := to;
      caller := Jump(from, data, load, ret, c);
      s := C.Enter(C.Save(s, ret), to, chain, data);
    }

    method SetYieldTo(to: C.Thread, from: C.Thread?)
      requires Mirrors() && to in s.th
      modifies to`yieldTo, this`s
      ensures Mirrors() && s == C.WithYieldTo(old(s), to, from)
    {
      to.yieldTo := from;
      s := C.WithYieldTo(s, to, from);
    }

    method SetCaller(to: C.Thread, caller: Caller)
      requires Mirrors() && to in s.th
      modifies to`caller, this`s
      ensures Mirrors() && s == C.WithCaller(old(s), to, caller)
    {
      to.caller := caller;
      s := C.WithCaller(s, to, caller);
    }

    /** The assignments of a call around its switch. */
    method Resume(to: C.Thread, data: int, ret: int)
      requires Mirrors() && to in s.th && to != s.self && (s.self != null ==> s.self in s.th)
      requires to in s.ctx && Image(Pushed(s.mem, s.r, ret), s.th[to].stack, s.ctx[to])
      modifies this, cpu, s.th.Keys
      ensures Mirrors() && s == C.Call(old(s), to, data, ret)
    {
      hide *;
      Opened();
      LookAt(to);
      C.CallInSteps(s, to, data, ret);
      var from := self;
      SetYieldTo(to, from);
      Opened();
      LookAt(to);
      var caller := SwitchTo(to, data, to.stack, ret, s.chain + [to], s.ctx[to]);
      SetCaller(to, caller);
    }

    /** `cthread_call` */
    method Call(to: C.Thread, data: int, ret: int)
      requires Valid() && C.Legal(s, C.OpCall(to, data, ret))
      modifies this, cpu, s.th.Keys
      ensures Valid() && old(C.Inv(s)) && s == C.Next(old(s), C.OpCall(to, data, ret))
    {
      hide Image, Pushed, C.Base, C.Joins, C.Room, Mirrors, C.Call;
      C.BaseHasSelf(s);
      C.CallKeeps(s, to, data, ret);
      LoadImage(to, ret);
      Resume(to, data, ret);
    }

    /** `cthread_tailcall`, from the current thread, which may have just finished. */
    method Replace(to: C.Thread, data: int, ret: int)
      requires Mirrors() && to in s.th && s.self != null && to != s.self && s.self in s.th && s.chain != []
      requires to in s.ctx && Image(Pushed(s.mem, s.r, ret), s.th[to].stack, s.ctx[to])
      modifies this, cpu, s.th.Keys
      ensures Mirrors() && s == C.TailCall(old(s), to, data, ret)
    {
      hide *;
      Opened();
      LookAt(self);
      C.TailCallInSteps(s, to, data, ret);
      var from := self;
      SetYieldTo(to, from.yieldTo);
      Opened();
      LookAt(from);
      SetCaller(to, from.caller);
      Opened();
      LookAt(to);
      var dummy := SwitchTo(to, data, to.stack, ret, s.chain[..|s.chain| - 1] + [to], s.ctx[to]);
    }

    method TailCall(to: C.Thread, data: int, ret: int)
      requires Valid() && C.Legal(s, C.OpTailCall(to, data, ret))
      modifies this, cpu, s.th.Keys
      ensures Valid() && old(C.Inv(s)) && s == C.Next(old(s), C.OpTailCall(to, data, ret))
    {
      hide Image, Pushed, C.Base, C.Joins, C.Room, Mirrors, C.TailCall;
      C.BaseHasSelf(s);
      C.TailCallKeeps(s, to, data, ret);
      LoadImage(to, ret);
      Replace(to, data, ret);
    }

    /** `do_yield` */
    method DoYield(data: int, ret: int, ghost c: Context)
      requires Mirrors() && s.self != null && s.self in s.th && s.chain != []
      requires var to := s.th[s.self].yieldTo;
               to != s.self && (to != null ==> to in s.th && to in s.ctx)
               && Image(Pushed(s.mem, s.r, ret), if to != null then s.th[to].stack else s.mainStack, c)
               && c == (if to != null && to in s.ctx then s.ctx[to] else s.mainCtx)
      modifies this, cpu, s.th.Keys
      ensures Mirrors() && s == C.Yield(old(s), data, ret)
    {
      hide Image, Pushed, Mirrors, Resumed, ContextAt, C.Save, C.Enter;
      Opened();
      var from := self;
      var to := from.yieldTo;
      var load := mainStack;
      if to != null {
        load := to.stack;
      }
      var dummy := SwitchTo(to, data, load, ret, s.chain[..|s.chain| - 1], c);
    }

    /** What `do_yield` needs of the thread below. */
    lemma YieldImage(ret: int) returns (c: Context)
      requires C.Base(s) && C.Room(s) && s.self != null
      ensures s.self in s.th && s.chain != []
      ensures var to := s.th[s.self].yieldTo;
              to != s.self && (to != null ==> to in s.th && to in s.ctx)
              && Image(Pushed(s.mem, s.r, ret), if to != null then s.th[to].stack else s.mainStack, c)
              && c == (if to != null && to in s.ctx then s.ctx[to] else s.mainCtx)
    {
      hide Image, Pushed, C.Parked, C.Guarded, C.Apart, C.Recorded;
      C.BaseHasSelf(s);
      C.BelowIsOther(s);
      var to := s.th[s.self].yieldTo;
      LoadImage(to, ret);
      c := if to != null && to in s.ctx then s.ctx[to] else s.mainCtx;
    }

    /** `cthread_yield` */
    method Yield(data: int, ret: int)
      requires Valid() && C.Legal(s, C.OpYield(data, ret))
      modifies this, cpu, s.th.Keys
      ensures Valid() && old(C.Inv(s)) && s == C.Next(old(s), C.OpYield(data, ret))
    {
      hide Image, Pushed, C.Base, C.Joins, C.Room, Mirrors, C.Yield;
      C.YieldKeeps(s, data, ret);
      ghost var c := YieldImage(ret);
      DoYield(data, ret, c);
    }

    /**
    `cthread_join` of thread `t`: its exit code at once if it has finished, and otherwise the
    current thread waits, to be resumed by the exit of `t`.
    */
    method Join(t: C.Thread, ret: int) returns (done: bool, code: int)
      requires Valid() && C.Free(s) && s.self != null && t in s.th
      requires !s.th[t].finished ==> C.Legal(s, C.OpWait(t, ret))
      modifies this, cpu, s.th.Keys
      ensures Valid() && old(C.Inv(s)) && done == old(s).th[t].finished
      ensures done ==> s == old(s) && code == C.ToInt(s.th[t].exitCode)
      ensures done ==> -0x8000_0000 <= code < 0x8000_0000 && (code - t.exitCode) % TWO32 == 0
      ensures !done ==> s == C.Next(old(s), C.OpWait(t, ret))
    {
      hide Image, Pushed, C.Base, C.Joins, C.Room, Mirrors, C.Wait, C.ToInt;
      Opened();
      if t.finished {
        C.ToIntIs(t.exitCode);
        return true, C.ToInt(t.exitCode);
      }
      C.WaitKeeps(s, t, ret);
      C.NoteJoinBase(s, t);
      C.RoomSame(s, C.NoteJoin(s, t));
      WaitIsYield(t, ret);
      Note(t);
      ghost var c := YieldImage(ret);
      DoYield(0, ret, c);
      done, code := false, 0;
    }

    lemma WaitIsYield(t: C.Thread, ret: int)
      requires t in s.th && s.self != null && s.self in s.th && s.chain != []
      ensures C.Wait(s, t, ret) == C.Yield(C.NoteJoin(s, t), 0, ret)
    {
    }

    /** `t->exit_to = c` */
    method Note(t: C.Thread)
      requires Mirrors() && t in s.th && s.self != null
      modifies this`s, t`exitTo
      ensures Mirrors() && s == C.NoteJoin(old(s), t)
    {
      t.exitTo := self;
      s := C.NoteJoin(s, t);
    }

    /** `cthread_join` after its yield, in the thread that waited for `t`. */
    method EndJoin(t: C.Thread) returns (code: int)
      requires Valid() && C.Legal(s, C.OpEndJoin) && t == s.joins[s.self]
      modifies this`s, s.th.Keys
      ensures Valid() && old(C.Inv(s)) && s == C.Next(old(s), C.OpEndJoin)
      ensures t in s.th && s.th[t].finished && code == C.ToInt(s.th[t].exitCode)
      ensures -0x8000_0000 <= code < 0x8000_0000 && (code - t.exitCode) % TWO32 == 0
    {
      hide C.Base, C.Joins, C.ToInt;
      C.EndJoinKeeps(s);
      assert t.finished;
      t.exitTo := null;
      s := C.EndJoin(s, t);
      C.ToIntIs(t.exitCode);
      code := C.ToInt(t.exitCode);
    }

    /** `cthread_exit` up to its switch. */
    method Finish(code: int)
      requires Mirrors() && s.self != null && s.self in s.th
      modifies this`numThreads, this`s, s.th.Keys
      ensures Mirrors() && s == C.Finish(old(s), code)
    {
      numThreads := numThreads - 1;
      self.finished := true;
      self.exitCode := code;
      s := C.Finish(s, code);
    }

    /** `cthread_exit` from a state `s` that differs from a good one, `s0`, in registers at most. */
    method Leave(code: int, ret: int, ghost s0: C.State)
      requires Mirrors() && C.Inv(s0) && C.Free(s0) && C.Moved(s0, s) && C.Room(s)
      requires s.self != null && s.self in s.th && s.chain != [] && C.Base(C.Finish(s, code))
      requires s.th[s.self].exitTo != null ==> s.th[s.self].exitTo in s.th
      modifies this, cpu, s.th.Keys
      ensures Mirrors() && s == C.Exit(old(s), code, ret)
    {
      hide Image, Pushed, C.Base, C.Joins, C.Room, Mirrors, C.Yield, C.TailCall, C.Finish, C.Callable;
      Opened();
      FinishSame(s0, code);
      var c := self;
      Finish(code);
      Opened();
      if c.exitTo != null {
        LoadImage(c.exitTo, ret);
        Replace(c.exitTo, 0, ret);
      } else {
        ghost var x := YieldImage(ret);
        DoYield(0, ret, x);
      }
    }

    lemma FinishSame(s0: C.State, code: int)
      requires C.Inv(s0) && C.Free(s0) && C.Moved(s0, s) && C.Room(s)
      requires s.self != null && s.self in s.th && s.chain != []
      requires s.th[s.self].exitTo != null ==> s.th[s.self].exitTo in s.th
      ensures var f := C.Finish(s, code);
              && C.Room(f) && f.self == s.self && f.chain == s.chain && f.th.Keys == s.th.Keys && f.ctx == s.ctx
              && f.self in f.th && f.th[f.self].exitTo == s.th[s.self].exitTo
              && var j := f.th[f.self].exitTo;
                 j != null ==> j in f.th && !f.th[j].finished && j != f.self
    {
      hide C.Base;
      if s.th[s.self].exitTo != null {
        C.JoinerIsCallable(s0, C.Finish(s, code), code);
      }
    }

    /** `cthread_exit` */
    method Exit(code: int, ret: int)
      requires Valid() && C.Legal(s, C.OpExit(code, ret))
      modifies this, cpu, s.th.Keys
      ensures Valid() && old(C.Inv(s)) && s == C.Next(old(s), C.OpExit(code, ret))
    {
      hide Image, Pushed, C.Base, C.Joins, C.Room, Mirrors, C.Exit, C.Finish;
      Opened();
      C.ExitKeeps(s, code, ret);
      C.FinishBase(s, code);
      Leave(code, ret, s);
    }

    /** A return instruction at the end of the current thread's function. */
    method Land()
      requires Mirrors()
      modifies this`s, cpu
      ensures Mirrors() && s == C.Landed(old(s)) && cpu.r.rax == old(s).r.rax
    {
      var rip := cpu.Pop();
      cpu.r := cpu.r.(rip := rip);
      s := C.Landed(s);
    }

    /**
    The return of a thread's function, to `__morestack`: the result is moved to the first argument,
    and `cthread_exit` is called with it.
    */
    method Return(ret: int)
      requires Valid() && C.Legal(s, C.OpReturn(ret))
      modifies this, cpu, s.th.Keys
      ensures Valid() && old(C.Inv(s)) && s == C.Next(old(s), C.OpReturn(ret))
    {
      hide Image, Pushed, C.Base, C.Joins, C.Room, Mirrors, C.Exit, C.Finish, C.Returning;
      Opened();
      ghost var s0 := s;
      C.ReturnKeeps(s, ret);
      C.FunctionReturns(s);
      C.LandedBase(s, s.r.rax);
      Land();
      assert s.r.rip == MORESTACK + 1;
      var rdi := cpu.r.rax;
      Leave(rdi, ret, s0);
    }

    /** `create_cthread` */
    method Create(fn: int, stack: int, sz: int) returns (c: C.Thread)
      requires Valid() && C.SpaceAt(s, stack, StructAddress(stack, sz))
      modifies this`numThreads, this`s, cpu
      ensures fresh(c) && c.lo == stack && c.addr == StructAddress(stack, sz)
      ensures Mirrors() && s == C.Create(old(s), c, fn)
      ensures c.stack == c.addr - 64 && Word(cpu.mem, c.addr - 16) == fn && Word(cpu.mem, c.addr - 8) == MORESTACK + 1
    {
      hide C.Inv, StructAddress;
      var p := StructAddress(stack, sz);
      c := new C.Thread(stack, p, p - 64);
      cpu.mem := cpu.mem[p - 64 := 0][p - 56 := 0][p - 48 := 0][p - 40 := 0][p - 32 := 0];
      cpu.mem := cpu.mem[p - 24 := p + 16];
      cpu.mem := cpu.mem[p - 16 := fn];
      cpu.mem := cpu.mem[p - 8 := MORESTACK + 1];
      numThreads := numThreads + 1;
      s := C.Create(s, c, fn);
    }

    /** `cthread_start`, and `cthread_main_start` when the main program is running. */
    method Start(fn: int, arg: int, stack: int, sz: int, ret: int) returns (to: C.Thread)
      requires Valid() && C.Room(s) && C.Free(s) && C.SpaceAt(s, stack, StructAddress(stack, sz))
      modifies this, cpu, s.th.Keys
      ensures Valid() && fresh(to) && to.lo == stack && to.addr == StructAddress(stack, sz)
      ensures old(C.Inv(s)) && C.Legal(old(s), C.OpStart(to, fn, arg, ret))
      ensures s == C.Next(old(s), C.OpStart(to, fn, arg, ret))
      ensures self == to && cpu.r.rip == fn && cpu.r.rax == arg && cpu.r.rsp == to.addr - 8
    {
      hide Image, Pushed, C.Base, C.Joins, C.Room, Mirrors, C.Call, C.Create, StructAddress;
      Opened();
      ghost var s0 := s;
      StructFits(stack, sz);
      to := Create(fn, stack, sz);
      C.StartKeeps(s0, to, fn, arg, ret);
      C.CreateKeeps(s0, to, fn);
      CreateSame(s0, to, fn);
      LoadImage(to, ret);
      Resume(to, arg, ret);
      Opened();
      C.StartEnters(s0, to, fn, arg, ret);
    }

    lemma CreateSame(s0: C.State, to: C.Thread, fn: int)
      requires C.Inv(s0) && C.Room(s0) && to !in s0.th
      ensures var u := C.Create(s0, to, fn);
              && C.Room(u) && u.self == s0.self && to != u.self && to in u.th && u.th.Keys == s0.th.Keys + {to}
              && !u.th[to].finished && (u.self != null ==> u.self in u.th)
    {
      hide C.Parked, C.Guarded, C.Apart, C.Joins, C.Records;
      C.SelfInChain(s0);
    }

    /** The caller takes back the memory of the finished thread `t`: the library has nothing in it. */
    ghost method Reap(t: C.Thread)
      requires Valid() && C.Legal(s, C.OpReap(t))
      modifies this`s
      ensures Valid() && old(C.Inv(s)) && s == C.Next(old(s), C.OpReap(t))
    {
      hide C.Inv;
      C.ReapKeeps(s, t);
      s := C.Reap(s, t);
    }

    /** The current thread's own code. */
    method Compute(r: Regs, mem: Memory)
      requires Valid() && C.Legal(s, C.OpCompute(r, mem))
      modifies this`s, cpu
      ensures Valid() && old(C.Inv(s)) && s == C.Next(old(s), C.OpCompute(r, mem))
    {
      hide C.Inv, C.Computes;
      C.ComputeKeeps(s, r, mem);
      cpu.r := r;
      cpu.mem := mem;
      s := s.(r := r, mem := mem);
    }
  }
}
