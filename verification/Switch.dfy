/**
The stack switch `cthread_asm_switch` on a machine of registers and word memory, instruction by
instruction, and the stack image that `create_cthread` gives a new thread.

Registers and stack follow the System V AMD64 psABI, sections 3.2.1 and 3.2.2: `rbx`, `rbp`,
`rsp` and `r12`-`r15` belong to the caller, and at a function's entry `rsp + 8` is a multiple
of 16.  The volatile argument registers are parameters, and the two places the code stores to
through pointers, the save slot and the caller record, are results.
*/
module Switch {

  datatype Regs = Regs(rax: int, rbx: int, rbp: int, rsp: int, r12: int, r13: int, r14: int, r15: int, rip: int)

  type Memory = map<int, int>

  /** A word of memory; a word that was never written holds some value, here 0. */
  function Word(m: Memory, a: int): int {
    if a in m then m[a] else 0
  }

  /** What a function call must find again when it returns. */
  datatype Context = Context(rsp: int, rbp: int, rbx: int, r12: int, r13: int, r14: int, r15: int, ret: int)

  /** `struct cthread_caller` */
  datatype Caller = Caller(stack: int, prev: int, ret: int)

  /** The words of memory from `sp` up are the saved context `c`. */
  ghost predicate Image(m: Memory, sp: int, c: Context) {
    && Word(m, sp) == c.r15
    && Word(m, sp + 8) == c.r14
    && Word(m, sp + 16) == c.r13
    && Word(m, sp + 24) == c.r12
    && Word(m, sp + 32) == c.rbx
    && Word(m, sp + 40) == c.rbp
    && Word(m, sp + 48) == c.ret
    && c.rsp == sp + 56
  }

  /** The bytes a saved context takes on the stack. */
  const IMAGE: int := 56

  /** The context of a call made with registers `r` that returns to `ret`. */
  function ContextAt(r: Regs, ret: int): Context {
    Context(r.rsp, r.rbp, r.rbx, r.r12, r.r13, r.r14, r.r15, ret)
  }

  /** The registers with which a call of context `c` returns `data`. */
  function Resumed(c: Context, data: int): Regs {
    Regs(data, c.rbx, c.rbp, c.rsp, c.r12, c.r13, c.r14, c.r15, c.ret)
  }

  function CallerOf(c: Context): Caller {
    Caller(c.rsp, c.rbp, c.ret)
  }

  /** Memory after a call instruction at `r` and the pushes of the switch. */
  function Pushed(m: Memory, r: Regs, ret: int): Memory {
    m[r.rsp - 8 := ret][r.rsp - 16 := r.rbp][r.rsp - 24 := r.rbx][r.rsp - 32 := r.r12]
     [r.rsp - 40 := r.r13][r.rsp - 48 := r.r14][r.rsp - 56 := r.r15]
  }

  /** The pushes leave an image of the call's context and touch nothing else. */
  lemma PushedImage(m: Memory, r: Regs, ret: int)
    ensures Image(Pushed(m, r, ret), r.rsp - IMAGE, ContextAt(r, ret))
    ensures var m' := Pushed(m, r, ret);
            && Word(m', r.rsp - 8) == ret && Word(m', r.rsp - 16) == r.rbp && Word(m', r.rsp - 24) == r.rbx
            && Word(m', r.rsp - 32) == r.r12 && Word(m', r.rsp - 40) == r.r13
            && Word(m', r.rsp - 48) == r.r14 && Word(m', r.rsp - 56) == r.r15
    ensures forall a | a < r.rsp - IMAGE || r.rsp <= a :: Word(Pushed(m, r, ret), a) == Word(m, a)
  {
  }

  /** A call that is resumed finds its registers as they were, the data in `rax`, and goes on at `ret`. */
  lemma ResumedIsReturn(r: Regs, ret: int, data: int)
    ensures Resumed(ContextAt(r, ret), data) == r.(rax := data, rip := ret)
  {
  }

  /** Only the image's own words matter to it. */
  lemma ImageFrame(m: Memory, m': Memory, sp: int, c: Context)
    requires Image(m, sp, c)
    requires forall a | sp <= a < sp + IMAGE :: Word(m', a) == Word(m, a)
    ensures Image(m', sp, c)
  {
  }

  // ---------- a new thread's stack ----------

  const SIZEOF_CTHREAD: int := 88

  /** The address of `__morestack`. */
  const MORESTACK: int := 0x1000

  /** Where `create_cthread` puts the thread's structure: below it lies the thread's stack. */
  function StructAddress(stack: int, sz: int): int {
    (stack + sz - SIZEOF_CTHREAD) / 16 * 16
  }

  lemma StructFits(stack: int, sz: int)
    ensures StructAddress(stack, sz) % 16 == 0
    ensures stack + sz - SIZEOF_CTHREAD - 16 < StructAddress(stack, sz) <= stack + sz - SIZEOF_CTHREAD
  {
  }

  /** The words `create_cthread` writes below the structure at `p`. */
  function Prepared(m: Memory, p: int, fn: int): Memory {
    m[p - 64 := 0][p - 56 := 0][p - 48 := 0][p - 40 := 0][p - 32 := 0]
     [p - 24 := p + 16][p - 16 := fn][p - 8 := MORESTACK + 1]
  }

  /** The context that first enters a thread: `fn`, its frame pointer at the caller record's frame. */
  function EntryContext(p: int, fn: int): Context {
    Context(p - 8, p + 16, 0, 0, 0, 0, 0, fn)
  }

  /**
  A new thread enters `fn` with the data in `rax` and the stack aligned as a called function expects;
  its frame pointer is at the caller record's frame, the other registers are zero, and its return
  address leads to `__morestack` with the stack pointer at the thread's structure, aligned for the
  call made there.
  */
  lemma EntryIsAligned(m: Memory, p: int, fn: int)
    requires p % 16 == 0
    ensures forall data :: Resumed(EntryContext(p, fn), data) == Regs(data, 0, p + 16, p - 8, 0, 0, 0, 0, fn)
    ensures Word(Prepared(m, p, fn), p - 16) == fn && Word(Prepared(m, p, fn), p - 24) == p + 16
    ensures forall a | a in {p - 32, p - 40, p - 48, p - 56, p - 64} :: Word(Prepared(m, p, fn), a) == 0
    ensures Image(Prepared(m, p, fn), p - 64, EntryContext(p, fn))
    ensures (EntryContext(p, fn).rsp + 8) % 16 == 0
    ensures Word(Prepared(m, p, fn), EntryContext(p, fn).rsp) == MORESTACK + 1
    ensures EntryContext(p, fn).rsp + 8 == p && (p - 8 + 8) % 16 == 0
    ensures forall a | a < p - 64 || p <= a :: Word(Prepared(m, p, fn), a) == Word(m, a)
  {
  }

  class Cpu {
    var r: Regs
    var mem: Memory

    method Push(v: int)
      modifies this
      ensures r == old(r).(rsp := old(r).rsp - 8) && mem == old(mem)[old(r).rsp - 8 := v]
    {
      r := r.(rsp := r.rsp - 8);
      mem := mem[r.rsp := v];
    }

    method Pop() returns (v: int)
      modifies this`r
      ensures v == Word(mem, old(r).rsp) && r == old(r).(rsp := old(r).rsp + 8)
    {
      v := Word(mem, r.rsp);
      r := r.(rsp := r.rsp + 8);
    }

    /** The call instruction and the first half of the switch, up to `switch_point`. */
    method SaveHalf(ret: int) returns (saved: int, caller: Caller)
      modifies this
      ensures mem == Pushed(old(mem), old(r), ret)
      ensures saved == old(r).rsp - IMAGE && caller == Caller(old(r).rsp, old(r).rbp, ret)
      ensures caller == CallerOf(ContextAt(old(r), ret))
      ensures r == old(r).(rsp := saved)
    {
      Push(ret);
      var rax := r.rsp + 8;
      var stack := rax;
      var prev := r.rbp;
      rax := Word(mem, r.rsp);
      caller := Caller(stack, prev, rax);
      Push(r.rbp);
      Push(r.rbx);
      Push(r.r12);
      Push(r.r13);
      Push(r.r14);
      Push(r.r15);
      saved := r.rsp;
    }

    /** The second half, from `switch_point` to the return. */
    method LoadHalf(rdi: int, rsi: int, ghost c: Context)
      requires Image(mem, rsi, c)
      modifies this`r
      ensures r == Resumed(c, rdi)
      ensures r.rax == rdi && r.rsp == rsi + 56 && r.rip == Word(mem, rsi + 48)
      ensures r.rbp == Word(mem, rsi + 40) && r.rbx == Word(mem, rsi + 32) && r.r12 == Word(mem, rsi + 24)
      ensures r.r13 == Word(mem, rsi + 16) && r.r14 == Word(mem, rsi + 8) && r.r15 == Word(mem, rsi)
    {
      r := r.(rsp := rsi);
      var v := Pop();
      r := r.(r15 := v);
      v := Pop();
      r := r.(r14 := v);
      v := Pop();
      r := r.(r13 := v);
      v := Pop();
      r := r.(r12 := v);
      v := Pop();
      r := r.(rbx := v);
      v := Pop();
      r := r.(rbp := v);
      r := r.(rax := rdi);
      v := Pop();
      r := r.(rip := v);
    }

    /**
    `cthread_asm_switch` with data `rdi` and load stack `rsi`, from a call that returns to `ret`:
    the calling context is saved, and the context found at `rsi` returns the data.
    */
    method AsmSwitch(rdi: int, rsi: int, ret: int, ghost c: Context) returns (saved: int, caller: Caller)
      requires Image(Pushed(mem, r, ret), rsi, c)
      modifies this
      ensures mem == Pushed(old(mem), old(r), ret)
      ensures saved == old(r).rsp - IMAGE && caller == CallerOf(ContextAt(old(r), ret))
      ensures r == Resumed(c, rdi)
      ensures r.rax == rdi && r.rsp == rsi + 56 && r.rip == Word(mem, rsi + 48)
      ensures r.rbp == Word(mem, rsi + 40) && r.rbx == Word(mem, rsi + 32) && r.r12 == Word(mem, rsi + 24)
      ensures r.r13 == Word(mem, rsi + 16) && r.r14 == Word(mem, rsi + 8) && r.r15 == Word(mem, rsi)
    {
      hide *;
      saved, caller := SaveHalf(ret);
      LoadHalf(rdi, rsi, c);
    }
  }
}
