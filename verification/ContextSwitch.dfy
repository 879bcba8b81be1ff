/** Kernel stacks and machine_switch_context: kern/thread.c and hal/x86_64/thread_switch.S. */
module ContextSwitch {
  import opened Words
  import opened Arith

  const KSTACK_WORDS: nat := 512
  const KSTACK_SIZE: nat := 4096

  /** The registers a called function preserves (System V AMD64 ABI, section 3.2.1). */
  datatype Regs = Regs(rbp: Word, rbx: Word, r12: Word, r13: Word, r14: Word, r15: Word)

  /** Where a suspended thread goes on: its registers, its stack pointer, its return address. */
  datatype Context = Context(regs: Regs, rsp: nat, rip: Word)

  class KThread {
    const stack: nat     // page number of the kernel stack
    var saved_rsp: nat

    constructor (stack: nat, saved_rsp: nat)
      ensures this.stack == stack && this.saved_rsp == saved_rsp
    {
      this.stack, this.saved_rsp := stack, saved_rsp;
    }

    function Bottom(): nat { stack * KSTACK_SIZE }
    function Top(): nat { stack * KSTACK_SIZE + KSTACK_SIZE }
  }

  /** The seven words machine_switch_context pops, from address `s` upwards, are the context `c`. */
  ghost predicate FrameAt(mem: seq<Word>, s: nat, c: Context)
  {
    && s % 8 == 0 && s / 8 + 7 <= |mem| && c.rsp == s + 56
    && c.regs == Regs(mem[s / 8 + 5], mem[s / 8 + 4], mem[s / 8 + 3], mem[s / 8 + 2], mem[s / 8 + 1], mem[s / 8])
    && c.rip == mem[s / 8 + 6]
  }

  /** The six words below address `s`, from rbp down to r15. */
  ghost predicate PushedBelow(mem: seq<Word>, s: nat, r: Regs)
  {
    && 6 <= s / 8 <= |mem|
    && mem[s / 8 - 1] == r.rbp && mem[s / 8 - 2] == r.rbx && mem[s / 8 - 3] == r.r12
    && mem[s / 8 - 4] == r.r13 && mem[s / 8 - 5] == r.r14 && mem[s / 8 - 6] == r.r15
  }

  /** Only the stack page `p` differs. */
  ghost predicate OnlyPage(mem: seq<Word>, mem': seq<Word>, p: nat)
  {
    |mem'| == |mem| && forall i :: 0 <= i < |mem| && i / KSTACK_WORDS != p ==> mem'[i] == mem[i]
  }

  /** A frame on another stack survives. */
  lemma FrameElsewhere(mem: seq<Word>, mem': seq<Word>, p: nat, stack: nat, s: nat, c: Context)
    requires FrameAt(mem, s, c) && OnlyPage(mem, mem', p) && stack != p
    requires stack * KSTACK_SIZE <= s && s + 56 <= stack * KSTACK_SIZE + KSTACK_SIZE
    ensures FrameAt(mem', s, c)
  {
    forall i | s / 8 <= i < s / 8 + 7 ensures mem'[i] == mem[i] {
      assert i / KSTACK_WORDS == stack;
    }
  }

  /** `t` has the context `c` on its own stack, where its saved stack pointer says. */
  ghost predicate Parked(mem: seq<Word>, t: KThread, c: Context)
    reads t
  {
    t.Bottom() <= t.saved_rsp && t.saved_rsp + 56 <= t.Top() <= |mem| * 8 && FrameAt(mem, t.saved_rsp, c)
  }

  lemma NewlyParked(mem: seq<Word>, t: KThread, c: Context)
    requires t.saved_rsp == t.Top() - 64 && t.Top() <= |mem| * 8 && FrameAt(mem, t.saved_rsp, c)
    ensures Parked(mem, t, c)
  {}

  class Machine {
    const mem: array<Word>
    const thread_trampoline: Word
    var regs: Regs
    var rsp: nat
    var rip: Word
    var current: KThread
    ghost var suspended: map<KThread, Context>
    ghost var owner: map<nat, KThread>

    constructor (mem: array<Word>, current: KThread, thread_trampoline: Word)
      requires current.Top() <= mem.Length * 8
      ensures Valid() && this.mem == mem && this.current == current && suspended == map[]
      ensures this.thread_trampoline == thread_trampoline
    {
      this.mem, this.current, this.thread_trampoline := mem, current, thread_trampoline;
      regs, rsp, rip, suspended := Regs(0, 0, 0, 0, 0, 0), current.Top(), 0, map[];
      owner := map[current.stack := current];
    }

    /** `t` is the only thread on its stack page. */
    ghost predicate OwnsStack(t: KThread)
      reads `owner
    {
      t.stack in owner && owner[t.stack] == t
    }

    /** Every suspended thread has its whole context on its own stack. */
    ghost predicate Valid()
      reads this, mem, suspended.Keys
    {
      && current !in suspended && current.Top() <= mem.Length * 8 && OwnsStack(current)
      && forall t :: t in suspended ==> OwnsStack(t) && Parked(mem[..], t, suspended[t])
    }

    /** The stack pointer leaves room for the frame, and the return address is on top of the stack. */
    ghost predicate AtCall()
      reads this
    {
      rsp % 8 == 0 && current.Bottom() + 48 <= rsp && rsp + 8 <= current.Top()
    }

    /** What the running thread does between two switches: anything to its registers and to its own
        stack, ending with the call of machine_switch_context. */
    method Compute(regs': Regs, rsp': nat, words: seq<Word>)
      requires Valid() && |words| == KSTACK_WORDS
      requires rsp' % 8 == 0 && current.Bottom() + 48 <= rsp' && rsp' + 8 <= current.Top()
      modifies `regs, `rsp, mem
      ensures Valid() && AtCall() && regs == regs' && rsp == rsp'
      ensures forall i :: 0 <= i < KSTACK_WORDS ==> mem[current.stack * KSTACK_WORDS + i] == words[i]
    {
      ghost var was, p := mem[..], current.stack;
      regs, rsp := regs', rsp';
      forall i | 0 <= i < KSTACK_WORDS { mem[current.stack * KSTACK_WORDS + i] := words[i]; }
      assert OnlyPage(was, mem[..], p);
      FramesSurvive(was, current.stack);
    }

    /** Writes to one stack page leave every thread parked on another. */
    lemma FramesSurvive(was: seq<Word>, p: nat)
      requires OnlyPage(was, mem[..], p)
      requires forall t :: t in suspended ==> OwnsStack(t) && Parked(was, t, suspended[t])
      requires p in owner ==> owner[p] !in suspended
      ensures forall t :: t in suspended ==> Parked(mem[..], t, suspended[t])
    {
      forall t | t in suspended ensures Parked(mem[..], t, suspended[t]) {
        FrameElsewhere(was, mem[..], p, t.stack, t.saved_rsp, suspended[t]);
      }
    }

    method Push(w: Word)
      requires rsp % 8 == 0 && 8 <= rsp <= mem.Length * 8
      modifies `rsp, mem
      ensures rsp == old(rsp) - 8 && mem[..] == old(mem[..])[rsp / 8 := w]
    {
      rsp := rsp - 8;
      mem[rsp / 8] := w;
    }

    method Pop() returns (w: Word)
      requires rsp % 8 == 0 && rsp + 8 <= mem.Length * 8
      modifies `rsp
      ensures rsp == old(rsp) + 8 && w == mem[old(rsp) / 8]
    {
      w := mem[rsp / 8];
      rsp := rsp + 8;
    }

    /** The six pushes. */
    method PushRegs()
      requires rsp % 8 == 0 && 48 <= rsp && rsp + 8 <= mem.Length * 8
      modifies `rsp, mem
      ensures rsp == old(rsp) - 48 && |mem[..]| == |old(mem[..])|
      ensures FrameAt(mem[..], rsp, Context(regs, old(rsp) + 8, old(mem[rsp / 8])))
      ensures PushedBelow(mem[..], old(rsp), regs)
      ensures forall i :: 0 <= i < mem.Length && !(rsp / 8 <= i < old(rsp) / 8) ==> mem[i] == old(mem[i])
    {
      Push(regs.rbp);
      Push(regs.rbx);
      Push(regs.r12);
      Push(regs.r13);
      Push(regs.r14);
      Push(regs.r15);
    }

    /** The six pops and the return. */
    method PopRegs(ghost c: Context)
      requires FrameAt(mem[..], rsp, c)
      modifies `rsp, `regs, `rip
      ensures regs == c.regs && rsp == c.rsp && rip == c.rip
    {
      var r15 := Pop();
      var r14 := Pop();
      var r13 := Pop();
      var r12 := Pop();
      var rbx := Pop();
      var rbp := Pop();
      regs := Regs(rbp, rbx, r12, r13, r14, r15);
      rip := Pop();
    }

    /** The first half of machine_switch_context: the current thread's context goes to its stack. */
    method Save()
      requires Valid() && AtCall()
      modifies `rsp, mem, current
      ensures Valid() && OnlyPage(old(mem[..]), mem[..], current.stack)
      ensures Parked(mem[..], current, old(Context(regs, rsp + 8, mem[rsp / 8])))
      ensures current.saved_rsp == old(rsp) - 48 && PushedBelow(mem[..], old(rsp), regs)
    {
      ghost var was := mem[..];
      PushRegs();
      hide FrameAt, PushedBelow;
      current.saved_rsp := rsp;
      assert OnlyPage(was, mem[..], current.stack);
      FramesSurvive(was, current.stack);
    }

    /** The second half: the context `c` of `next` comes from its stack. */
    method Restore(next: KThread, ghost c: Context)
      requires Parked(mem[..], next, c)
      modifies `rsp, `regs, `rip
      ensures Context(regs, rsp, rip) == c && next.Top() <= mem.Length * 8
    {
      rsp := next.saved_rsp;
      PopRegs(c);
    }

    /** thread_switch.  The new thread goes on exactly where it was suspended, the old one's context is
        kept, and every other context is as it was. */
    method Switch(next: KThread)
      requires Valid() && AtCall() && next in suspended
      modifies this, mem, current
      ensures Valid() && current == next
      ensures Context(regs, rsp, rip) == old(suspended)[next]
      ensures suspended == (old(suspended) - {next})[old(current) := old(Context(regs, rsp + 8, mem[rsp / 8]))]
      ensures OnlyPage(old(mem[..]), mem[..], old(current).stack)
      ensures old(current).saved_rsp == old(rsp) - 48 && PushedBelow(mem[..], old(rsp), old(regs))
    {
      ghost var c := Context(regs, rsp + 8, mem[rsp / 8]);
      hide Parked, OnlyPage, PushedBelow;
      Save();
      Restore(next, suspended[next]);
      Handover(next, c);
    }

    /** `next` is the current thread from now on, the old one is suspended with context `c`. */
    method Handover(next: KThread, ghost c: Context)
      requires Valid() && next in suspended && Parked(mem[..], current, c) && next.Top() <= mem.Length * 8
      modifies `suspended, `current
      ensures Valid() && current == next && suspended == (old(suspended) - {next})[old(current) := c]
    {
      hide Parked;
      suspended := (suspended - {next})[current := c];
      current := next;
    }

    /** The stack part of thread_create: the frame from which the first switch enters the trampoline
        with the entry function and its argument in registers. */
    method Create(stack: nat, entry: Word, arg: Word) returns (t: KThread)
      requires Valid() && (stack + 1) * KSTACK_SIZE <= mem.Length * 8
      requires stack !in owner
      modifies `suspended, `owner, mem
      ensures Valid() && fresh(t) && t.stack == stack && current == old(current)
      ensures suspended == old(suspended)[t := FirstContext(t, entry, arg)]
      ensures OnlyPage(old(mem[..]), mem[..], stack)
      ensures t.saved_rsp == stack * 4096 + 4096 - 64
      ensures FirstWords(mem[..], stack * 512 + 512, entry, arg)
    {
      hide Parked, FrameAt, OnlyPage, FirstWords;
      ghost var was := mem[..];
      BuildFrame((stack + 1) * KSTACK_WORDS, entry, arg);
      t := new KThread(stack, (stack + 1) * KSTACK_SIZE - 64);
      ghost var c := FirstContext(t, entry, arg);
      NewlyParked(mem[..], t, c);
      FramesSurvive(was, stack);
      suspended := suspended[t := c];
      owner := owner[stack := t];
    }

    /** The eight words below word `top` of a new stack. */
    ghost predicate FirstWords(words: seq<Word>, top: nat, entry: Word, arg: Word)
    {
      && 8 <= top <= |words|
      && words[top - 8] == entry && words[top - 7] == arg && words[top - 2] == thread_trampoline
      && words[top - 6] == words[top - 5] == words[top - 4] == words[top - 3] == words[top - 1] == 0
    }

    /** The eight stores of thread_create, below word `top`. */
    method BuildFrame(top: nat, entry: Word, arg: Word)
      requires 8 <= top <= mem.Length && top % KSTACK_WORDS == 0
      modifies mem
      ensures FrameAt(mem[..], top * 8 - 64, Context(Regs(0, 0, 0, 0, arg, entry), top * 8 - 8, thread_trampoline))
      ensures forall p: nat :: (p + 1) * KSTACK_WORDS == top ==> OnlyPage(old(mem[..]), mem[..], p)
      ensures FirstWords(mem[..], top, entry, arg)
    {
      var sp := top;
      mem[sp - 1] := 0;
      mem[sp - 2] := thread_trampoline;
      mem[sp - 3] := 0;
      mem[sp - 4] := 0;
      mem[sp - 5] := 0;
      mem[sp - 6] := 0;
      mem[sp - 7] := arg;
      mem[sp - 8] := entry;
    }

    /** The context thread_create gives a thread: it returns into the trampoline with the entry function
        and its argument in registers. */
    function FirstContext(t: KThread, entry: Word, arg: Word): Context
    {
      Context(Regs(0, 0, 0, 0, arg, entry), t.Top() - 8, thread_trampoline)
    }

    /** thread_trampoline up to the entry of the called function: `mov rdi, r14` and `call r15`, which
        pushes the address `ret` behind it. */
    method Trampoline(ret: Word) returns (rdi: Word)
      requires Valid() && rsp % 8 == 0 && current.Bottom() + 8 <= rsp <= current.Top()
      modifies `rsp, `rip, mem
      ensures Valid() && rip == regs.r15 && rdi == regs.r14
      ensures rsp == old(rsp) - 8 && mem[rsp / 8] == ret
    {
      ghost var was := mem[..];
      hide Parked;
      rdi := regs.r14;
      Push(ret);
      assert OnlyPage(was, mem[..], current.stack);
      FramesSurvive(was, current.stack);
      rip := regs.r15;
    }

    /** The first switch to a thread, whenever it comes: the machine enters the trampoline, and from there
        the entry function with the argument that was asked for.  The stack pointer is 8 bytes off at the
        call, and so is `rsp + 8` at the function's entry, where the System V AMD64 ABI, section 3.2.2,
        asks for a multiple of 16. */
    method FirstRun(t: KThread, entry: Word, arg: Word, ret: Word) returns (rdi: Word, ghost before: nat)
      requires Valid() && AtCall() && t in suspended && suspended[t] == FirstContext(t, entry, arg)
      modifies this, mem, current
      ensures Valid() && current == t && rip == entry && rdi == arg
      ensures before == t.Top() - 8 && rsp == before - 8 && mem[rsp / 8] == ret
      ensures before % 16 == 8 && (rsp + 8) % 16 == 8
    {
      hide AtCall, Parked, OnlyPage;
      Switch(t);
      assert rip == thread_trampoline && rsp == t.Top() - 8 && regs.r15 == entry && regs.r14 == arg;
      before := rsp;
      TopIsAligned(t);
      rdi := Trampoline(ret);
    }

    lemma TopIsAligned(t: KThread)
      ensures (t.Top() - 8) % 16 == 8 && (t.Top() - 8) % 8 == 0 && t.Bottom() + 8 <= t.Top() - 8
    {
      var q := 256 * t.stack + 255;
      DivIs(t.Top() - 8, 16, q, 8);
      DivIs(t.Top() - 8, 8, 2 * q + 1, 0);
    }

    /** Some code of the running thread, up to its call of machine_switch_context. */
    method Work(turn: Turn)
      requires Valid() && turn.Ok()
      modifies `regs, `rsp, mem
      ensures Valid() && AtCall()
    {
      Compute(turn.regs, current.Top() - 8 * turn.depth, turn.words);
    }

    /** `t` is suspended with context `c`; the threads of the machine are `threads`. */
    ghost predicate Away(t: KThread, c: Context, threads: set<KThread>)
      reads this, mem, suspended.Keys
    {
      Valid() && suspended.Keys + {current} == threads && t in suspended && suspended[t] == c
    }

    /** The current thread works and switches, to another thread than `t`. */
    method TakeTurn(turn: Turn, ghost t: KThread, ghost c: Context, ghost threads: set<KThread>)
      requires Away(t, c, threads) && turn.Ok() && turn.next in threads && turn.next != t
      modifies this, mem, threads
      ensures Away(t, c, threads)
    {
      hide Valid, AtCall;
      Work(turn);
      if turn.next != current {
        Switch(turn.next);
      }
    }

    /** A thread that is switched away from and, after any run of other threads with any code between
        their switches, switched back to, goes on with the registers, the stack pointer and the
        return address it had. */
    method AwayAndBack(first: KThread, turns: seq<Turn>, last: Turn, ghost threads: set<KThread>)
      requires Valid() && AtCall() && first in suspended && last.Ok() && threads == suspended.Keys + {current}
      requires forall i :: 0 <= i < |turns| ==> turns[i].Ok() && turns[i].next in suspended
      modifies this, mem, threads
      ensures Valid() && current == old(current)
      ensures Context(regs, rsp, rip) == old(Context(regs, rsp + 8, mem[rsp / 8]))
    {
      var t := current;
      ghost var c := Context(regs, rsp + 8, mem[rsp / 8]);
      Leave(first, threads);
      hide Valid, AtCall;
      for i := 0 to |turns|
        invariant Away(t, c, threads)
      {
        TakeTurn(turns[i], t, c, threads);
      }
      hide Away;
      Return(last, t, c, threads);
    }

    method Leave(first: KThread, ghost threads: set<KThread>)
      requires Valid() && AtCall() && first in suspended && threads == suspended.Keys + {current}
      modifies this, mem, threads
      ensures Away(old(current), old(Context(regs, rsp + 8, mem[rsp / 8])), threads)
    {
      assert current !in suspended;
      hide Valid, AtCall;
      Switch(first);
    }

    method Return(last: Turn, t: KThread, ghost c: Context, ghost threads: set<KThread>)
      requires Away(t, c, threads) && last.Ok()
      modifies this, mem, threads
      ensures Valid() && current == t && Context(regs, rsp, rip) == c
    {
      hide Valid, AtCall;
      Work(last);
      Switch(t);
    }
  }

  /** What a thread does before it gives the processor away: its registers, the depth of its stack in
      words, its whole stack page, and the thread it switches to. */
  datatype Turn = Turn(regs: Regs, depth: nat, words: seq<Word>, next: KThread)
  {
    predicate Ok() { |words| == KSTACK_WORDS && 1 <= depth <= KSTACK_WORDS - 6 }
  }
}
