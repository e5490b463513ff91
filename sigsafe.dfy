/**
 * The signal-safety protocol of sigsafe (src/sigsafe.h): the per-thread
 * record sigsafe_tsd, the process-wide user_handlers table, the calls that
 * install and clear them, the delivery of a "safe" signal, and the generic
 * system call wrapper CHECK -> ENTER_KERNEL -> DONE | INTERRUPTED.
 *
 * Signal delivery is an explicit sequential event: the thread it targets
 * and the program counter it interrupts are arguments. Numeric constants are
 * those of Linux on x86.
 */
module Sigsafe {
  import opened Wrappers
  import opened Registry

  const EINTR: int := 4
  const EINVAL: int := 22
  const SIGKILL: int := 9
  const SIGUSR1: int := 10
  const SIGALRM: int := 14
  const SIGSTOP: int := 19
  /** SIGSAFE_NSIG: the number of slots in user_handlers. */
  const NSIG: int := 65

  /** sigaction(2) accepts a handler for this signal number. */
  predicate Catchable(signum: int) {
    0 < signum < NSIG && signum != SIGKILL && signum != SIGSTOP
  }

  /** Identity of a user handler (sigsafe_user_handler_t); what it does is up to the user. */
  datatype Handler = Handler(id: nat)
  /** Identity of a user-data destructor. */
  datatype Destructor = Destructor(id: nat)

  /** A call the library makes into user code, in the order it makes them. */
  datatype Invocation =
    | HandlerCall(handler: Handler, signum: int, userData: int)
    | DestructorCall(destructor: Destructor, userData: int)

  /** The per-thread record sigsafe_tsd, together with whether it is installed. */
  class ThreadState {
    var installed: bool
    var signalReceived: bool
    var userData: int
    var destructor: Option<Destructor>

    /** A thread that has not called sigsafe_install_tsd. */
    constructor ()
      ensures !installed && !signalReceived
    {
      installed := false;
      signalReceived := false;
      userData := 0;
      destructor := None;
    }
  }

  /** When the test signal of a wrapper run arrives. */
  datatype Injection =
    | NoSignal
      /** after `step` instructions of the wrapper have executed */
    | SignalAt(step: nat, signum: int)

  /** What the kernel does with the call once entered. */
  datatype KernelCall =
    | Returns(result: int)
      /** waits until the operation can complete (e.g. a read on an empty pipe), then returns `result` */
    | Blocks(result: int)

  datatype WrapperOutcome = WrapperOutcome(result: int, completed: bool)

  /**
   * Trampoline layout: the instruction executed at step i sits at
   * address + i. Steps below PreGuard(e) come before the guarded span; the
   * last of them loads the thread's flag. The kernel entry instruction, the
   * last of the span, is executed at step KernelStep(e).
   */
  function PreGuard(e: SyscallEntry): nat
    requires EntryWellFormed(e)
  {
    e.minjmp - e.address
  }

  function KernelStep(e: SyscallEntry): nat
    requires EntryWellFormed(e)
  {
    e.maxjmp - e.address
  }

  /**
   * The outcome of a wrapper run through trampoline `e`, with `s` the
   * registry, for a thread whose TSD is or is not installed and whose flag
   * is `received` on entry.
   */
  function Run(s: seq<SyscallEntry>, e: SyscallEntry, installed: bool, received: bool,
               kernel: KernelCall, inj: Injection): (o: WrapperOutcome)
    requires EntryWellFormed(e)
    ensures o.result == -EINTR || o.result == kernel.result
    ensures !o.completed ==> o.result == -EINTR
    ensures installed && received ==> !o.completed
  {
    var seen := installed && inj.SignalAt?;
    if installed && received then
      // CHECK finds the flag set
      WrapperOutcome(-EINTR, false)
    else if seen && inj.step < PreGuard(e) then
      // before the load: either redirected to the landing, or the load sees the fresh flag
      WrapperOutcome(-EINTR, false)
    else if seen && inj.step <= KernelStep(e) then
      if Redirected(s, e.address + inj.step) then WrapperOutcome(-EINTR, false)
      else WrapperOutcome(kernel.result, true)
    else match kernel
      case Returns(res) =>
        WrapperOutcome(if seen && Redirected(s, e.maxjmp + 1) then -EINTR else res, true)
      case Blocks(res) =>
        // a signal while blocked aborts the call at its restart point, the kernel entry instruction
        if seen && Redirected(s, e.maxjmp) then WrapperOutcome(-EINTR, false)
        else WrapperOutcome(res, true)
  }

  /**
   * No lost and no false interruption: with the TSD installed and the flag
   * clear, a signal arriving up to and including the kernel entry
   * instruction, or while the kernel is blocked in the call, makes the
   * wrapper return -EINTR without the call having taken effect; a signal
   * after the call has completed leaves its result alone.
   */
  lemma GuardedCallRaceFree(s: seq<SyscallEntry>, k: nat, kernel: KernelCall, n: nat, signum: int)
    requires WellFormedRegistry(s) && k < Consulted(s)
    ensures Run(s, s[k], true, false, kernel, SignalAt(n, signum)) ==
      if n <= KernelStep(s[k]) || kernel.Blocks? then WrapperOutcome(-EINTR, false)
      else WrapperOutcome(kernel.result, true)
  {
    var e := s[k];
    if PreGuard(e) <= n <= KernelStep(e) {
      ZoneRedirect(s, k, e.address + n);
    } else if KernelStep(e) < n {
      if kernel.Returns? {
        ReturnPointNotRedirected(s, k);
      } else {
        ZoneRedirect(s, k, e.maxjmp);
      }
    }
  }

  /** The flag is sticky: while it is set, every wrapper call returns -EINTR without entering the kernel. */
  lemma StickyFlag(s: seq<SyscallEntry>, e: SyscallEntry, kernel: KernelCall, inj: Injection)
    requires EntryWellFormed(e)
    ensures Run(s, e, true, true, kernel, inj) == WrapperOutcome(-EINTR, false)
  {
  }

  /** Without a signal and with the flag clear, the wrapper returns what the kernel returns. */
  lemma QuietCallReturnsKernelResult(s: seq<SyscallEntry>, e: SyscallEntry, installed: bool, kernel: KernelCall)
    requires EntryWellFormed(e)
    ensures Run(s, e, installed, false, kernel, NoSignal) == WrapperOutcome(kernel.result, true)
  {
  }

  /** Signals arriving before sigsafe_install_tsd have no effect on the call. */
  lemma UninstalledIgnoresSignals(s: seq<SyscallEntry>, e: SyscallEntry, received: bool, kernel: KernelCall, inj: Injection)
    requires EntryWellFormed(e)
    ensures Run(s, e, false, received, kernel, inj) == WrapperOutcome(kernel.result, true)
  {
  }

  /**
   * A wrapper never reports -EINTR for a call that completed, unless the
   * kernel itself returned -EINTR; and a call that did not complete always
   * reports -EINTR.
   */
  lemma NoEintrAfterCompletion(s: seq<SyscallEntry>, k: nat, installed: bool, received: bool,
                               kernel: KernelCall, inj: Injection)
    requires WellFormedRegistry(s) && k < Consulted(s)
    ensures var o := Run(s, s[k], installed, received, kernel, inj);
      (o.completed ==> o.result == kernel.result) && (!o.completed ==> o.result == -EINTR)
  {
    if installed && !received && inj.SignalAt? {
      GuardedCallRaceFree(s, k, kernel, inj.step, inj.signum);
    }
  }

  /** The user handler invocation a delivery to `t` makes, if any. */
  function Dispatch(handlers: seq<Option<Handler>>, installed: bool, signum: int, userData: int): (calls: seq<Invocation>)
    requires 0 <= signum < |handlers|
    ensures calls != [] <==> installed && handlers[signum].Some?
    ensures calls != [] ==> calls == [HandlerCall(handlers[signum].value, signum, userData)]
  {
    if installed && handlers[signum].Some? then [HandlerCall(handlers[signum].value, signum, userData)] else []
  }

  /** The process: the registry, the user_handlers table and the signals sigsafe catches. */
  class Process {
    const syscalls: array<SyscallEntry>
    const userHandlers: array<Option<Handler>>
    var safeSignals: set<int>
    var invocations: seq<Invocation>

    ghost predicate Valid()
      reads this, syscalls, userHandlers
    {
      && userHandlers.Length == NSIG
      && HasSentinel(syscalls[..])
      && (forall signum :: signum in safeSignals ==> Catchable(signum))
    }

    constructor (syscalls: array<SyscallEntry>)
      requires HasSentinel(syscalls[..])
      ensures Valid() && this.syscalls == syscalls && fresh(userHandlers)
      ensures forall i :: 0 <= i < NSIG ==> userHandlers[i] == None
      ensures safeSignals == {} && invocations == []
    {
      this.syscalls := syscalls;
      userHandlers := new Option<Handler>[NSIG](_ => None);
      safeSignals := {};
      invocations := [];
    }

    /**
     * sigsafe_install_handler: 0 on success, -EINVAL for a number
     * sigaction(2) refuses. A later call for the same number wins.
     */
    method InstallHandler(signum: int, handler: Option<Handler>) returns (r: int)
      requires Valid()
      modifies this`safeSignals, userHandlers
      ensures Valid()
      ensures r == (if Catchable(signum) then 0 else -EINVAL)
      ensures Catchable(signum) ==>
        safeSignals == old(safeSignals) + {signum} && userHandlers[..] == old(userHandlers[..])[signum := handler]
      ensures !Catchable(signum) ==> safeSignals == old(safeSignals) && userHandlers[..] == old(userHandlers[..])
    {
      if !Catchable(signum) {
        return -EINVAL;
      }
      userHandlers[signum] := handler;
      safeSignals := safeSignals + {signum};
      r := 0;
    }

    /** sigsafe_install_tsd, called at most once per thread. */
    method InstallTsd(t: ThreadState, userData: int, destructor: Option<Destructor>) returns (r: int)
      requires !t.installed
      modifies t
      ensures r == 0
      ensures t.installed && !t.signalReceived && t.userData == userData && t.destructor == destructor
    {
      t.installed, t.signalReceived := true, false;
      t.userData, t.destructor := userData, destructor;
      r := 0;
    }

    /** sigsafe_clear_received: clears every signal received so far and returns the user data. */
    method ClearReceived(t: ThreadState) returns (userData: int)
      requires t.installed
      modifies t`signalReceived
      ensures !t.signalReceived && userData == t.userData
    {
      t.signalReceived := false;
      userData := t.userData;
    }

    /**
     * Delivery of a signal sigsafe catches to thread `t`, interrupting it at
     * ctx.pc. Without TSD nothing happens. Otherwise the flag is set (not
     * the number), the user handler runs with the thread's user data, and the
     * registry decides where the thread resumes. No other thread changes.
     */
    method Deliver(t: ThreadState, signum: int, ctx: Context)
      requires Valid() && signum in safeSignals
      modifies t`signalReceived, this`invocations, ctx`pc
      ensures Valid()
      ensures t.signalReceived == (old(t.signalReceived) || t.installed)
      ensures invocations == old(invocations) + Dispatch(userHandlers[..], t.installed, signum, t.userData)
      ensures ctx.pc == if t.installed then NewPc(syscalls[..], old(ctx.pc)) else old(ctx.pc)
    {
      if !t.installed {
        return;
      }
      t.signalReceived := true;
      if userHandlers[signum].Some? {
        invocations := invocations + [HandlerCall(userHandlers[signum].value, signum, t.userData)];
      }
      SighandlerForPlatform(ctx, syscalls);
    }

    /** Delivery to `t` while it executes the instruction at `pc`; returns where it resumes. */
    method DeliverAt(t: ThreadState, signum: int, pc: int) returns (resume: int)
      requires Valid() && signum in safeSignals
      modifies t`signalReceived, this`invocations
      ensures Valid()
      ensures t.signalReceived == (old(t.signalReceived) || t.installed)
      ensures invocations == old(invocations) + Dispatch(userHandlers[..], t.installed, signum, t.userData)
      ensures resume == if t.installed then NewPc(syscalls[..], pc) else pc
    {
      var ctx := new Context(pc, []);
      Deliver(t, signum, ctx);
      resume := ctx.pc;
    }

    /** Thread exit: the TSD is released and its destructor runs with the user data. */
    method ExitThread(t: ThreadState)
      requires Valid()
      modifies t`installed, this`invocations
      ensures Valid()
      ensures !t.installed
      ensures invocations == old(invocations) +
        (if old(t.installed) && t.destructor.Some? then [DestructorCall(t.destructor.value, t.userData)] else [])
    {
      if t.installed && t.destructor.Some? {
        invocations := invocations + [DestructorCall(t.destructor.value, t.userData)];
      }
      t.installed := false;
    }

    /**
     * A sigsafe_* system call wrapper through trampoline `e`, for thread
     * `t`, with the kernel behaving as `kernel` and a signal possibly
     * injected at a given step. The outcome is Run's; a delivered signal
     * sets the flag and dispatches exactly once.
     */
    method Syscall(t: ThreadState, e: SyscallEntry, kernel: KernelCall, inj: Injection) returns (r: int, completed: bool)
      requires Valid() && EntryWellFormed(e)
      requires inj.SignalAt? ==> inj.signum in safeSignals
      modifies t`signalReceived, this`invocations
      ensures Valid()
      ensures WrapperOutcome(r, completed) == Run(syscalls[..], e, t.installed, old(t.signalReceived), kernel, inj)
      ensures t.signalReceived == (old(t.signalReceived) || (t.installed && inj.SignalAt?))
      ensures invocations == old(invocations) +
        (if inj.SignalAt? then Dispatch(userHandlers[..], t.installed, inj.signum, t.userData) else [])
    {
      // CHECK: the instructions up to and including the load of the flag
      if inj.SignalAt? && inj.step < PreGuard(e) {
        var resume := DeliverAt(t, inj.signum, e.address + inj.step);
        if resume != e.address + inj.step {
          return -EINTR, false;
        }
      }
      if t.installed && t.signalReceived {
        if inj.SignalAt? && PreGuard(e) <= inj.step {
          // the signal arrives once the wrapper has branched to its landing
          var _ := DeliverAt(t, inj.signum, e.jmpto);
        }
        return -EINTR, false;
      }
      // ENTER_KERNEL: the guarded span, ending with the kernel entry instruction
      if inj.SignalAt? && PreGuard(e) <= inj.step <= KernelStep(e) {
        var pc := e.address + inj.step;
        var resume := DeliverAt(t, inj.signum, pc);
        if resume != pc {
          return -EINTR, false;
        }
        return kernel.result, true;
      }
      r, completed := EnterKernel(t, e, kernel, if inj.SignalAt? && KernelStep(e) < inj.step then inj else NoSignal);
    }

    /**
     * The wrapper once it has entered the kernel, for a thread whose flag
     * is clear or that has no TSD; a signal, if any, arrives after the
     * kernel entry instruction has executed.
     */
    method EnterKernel(t: ThreadState, e: SyscallEntry, kernel: KernelCall, inj: Injection) returns (r: int, completed: bool)
      requires Valid() && EntryWellFormed(e) && !(t.installed && t.signalReceived)
      requires inj.SignalAt? ==> inj.signum in safeSignals && KernelStep(e) < inj.step
      modifies t`signalReceived, this`invocations
      ensures Valid()
      ensures WrapperOutcome(r, completed) == Run(syscalls[..], e, t.installed, false, kernel, inj)
      ensures t.signalReceived == (old(t.signalReceived) || (t.installed && inj.SignalAt?))
      ensures invocations == old(invocations) +
        (if inj.SignalAt? then Dispatch(userHandlers[..], t.installed, inj.signum, t.userData) else [])
    {
      match kernel {
        case Returns(res) =>
          r, completed := res, true;
          if inj.SignalAt? {
            var resume := DeliverAt(t, inj.signum, e.maxjmp + 1);
            if resume != e.maxjmp + 1 {
              r := -EINTR;
            }
          }
        case Blocks(res) =>
          if inj.SignalAt? {
            // a signal while blocked aborts the call at its restart point
            var resume := DeliverAt(t, inj.signum, e.maxjmp);
            if resume != e.maxjmp {
              return -EINTR, false;
            }
          }
          r, completed := res, true;
      }
    }
  }

  /**
   * Signals coalesce: two deliveries before one sigsafe_clear_received are
   * cleared together, and the next call without a signal returns the
   * kernel's result.
   */
  method ClearCoalesces(p: Process, t: ThreadState, e: SyscallEntry, kernel: KernelCall,
                        first: int, second: int, pc1: int, pc2: int) returns (r: int)
    requires p.Valid() && EntryWellFormed(e) && t.installed
    requires first in p.safeSignals && second in p.safeSignals
    modifies t`signalReceived, p`invocations
    ensures r == kernel.result && !t.signalReceived
  {
    var resume := p.DeliverAt(t, first, pc1);
    resume := p.DeliverAt(t, second, pc2);
    var userData := p.ClearReceived(t);
    var completed;
    r, completed := p.Syscall(t, e, kernel, NoSignal);
  }
}
