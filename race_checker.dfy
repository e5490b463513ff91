/**
 * The race checker's read test (tests/race_checker/races_io.c): the child
 * reads one byte from a pipe while the driver single-steps it, delivers a
 * signal after N instructions and then nudges the pipe. Each run is
 * classified INTERRUPTED / NORMAL / WEIRD (tests/race_checker/race_checker.h).
 */
module RaceChecker {
  import opened Wrappers
  import opened Registry
  import opened Sigsafe

  datatype RunResult = Interrupted | Normal | Weird

  /** do_safe_read: classification of the sigsafe_read return value. */
  function SafeReadResult(retval: int): (r: RunResult)
    ensures r == Interrupted <==> retval == -EINTR
    ensures r == Normal <==> retval == 1
  {
    if retval == -EINTR then Interrupted
    else if retval == 1 then Normal
    else Weird
  }

  /**
   * do_unsafe_read: a set signal_received short-cuts to INTERRUPTED, and the
   * read's return value and errno are then ignored; otherwise -1 with errno
   * EINTR is INTERRUPTED and one byte read is NORMAL.
   */
  function UnsafeReadResult(received: bool, retval: int, errno: int): (r: RunResult)
    ensures received ==> r == Interrupted
    ensures !received ==> (r == Interrupted <==> retval == -1 && errno == EINTR)
    ensures !received ==> (r == Normal <==> retval == 1)
  {
    if received then Interrupted
    else if retval == -1 && errno == EINTR then Interrupted
    else if retval == 1 then Normal
    else Weird
  }

  /** The pipe between driver and child, as a queue of bytes. */
  class Pipe {
    var bytes: seq<bv8>

    /** create_pipe: a new, empty pipe. */
    constructor ()
      ensures bytes == []
    {
      bytes := [];
    }

    /** nudge_read: writes the single byte 26. */
    method Nudge()
      modifies this
      ensures bytes == old(bytes) + [26]
    {
      bytes := bytes + [26];
    }

    /** A one-byte read; None when the pipe is empty and a reader would block. */
    method ReadByte() returns (c: Option<bv8>)
      modifies this
      ensures old(bytes) == [] ==> c == None && bytes == []
      ensures old(bytes) != [] ==> c == Some(old(bytes)[0]) && bytes == old(bytes)[1..]
    {
      if bytes == [] {
        return None;
      }
      c := Some(bytes[0]);
      bytes := bytes[1..];
    }
  }

  /** A nudge followed by a one-byte read on a fresh pipe yields the byte 26. */
  method NudgeThenRead() returns (c: Option<bv8>)
    ensures c == Some(26)
  {
    var p := new Pipe();
    p.Nudge();
    c := p.ReadByte();
  }

  /** What the child reports, and whether its read consumed the byte. */
  datatype ChildRun = ChildRun(result: RunResult, consumed: bool)

  /**
   * The kernel side of a one-byte read: with a byte already in the pipe it
   * returns 1 at once; on an empty pipe it blocks until the driver's nudge.
   */
  function PipeRead(hasByte: bool): (k: KernelCall)
    ensures k.result == 1
    ensures k.Returns? <==> hasByte
  {
    if hasByte then Returns(1) else Blocks(1)
  }

  /**
   * The child running do_safe_read with its TSD installed and its flag
   * clear, through trampoline `e`, the signal arriving after n steps.
   */
  function SafeChild(s: seq<SyscallEntry>, e: SyscallEntry, hasByte: bool, n: nat, signum: int): (run: ChildRun)
    requires EntryWellFormed(e)
    ensures run.result != Weird
    ensures !run.consumed ==> run.result == Interrupted
  {
    var o := Run(s, e, true, false, PipeRead(hasByte), SignalAt(n, signum));
    ChildRun(SafeReadResult(o.result), o.completed)
  }

  /**
   * The child running do_unsafe_read, whose plain handler only sets
   * signal_received. Step 0 is the test of the flag; the next `window`
   * steps are read(2) up to and including its kernel entry instruction;
   * after those the child is in the kernel.
   */
  function UnsafeChild(window: nat, hasByte: bool, n: nat): (run: ChildRun)
    ensures run.result != Weird
    ensures run.consumed <==> run.result == Normal
    ensures n == 0 ==> run == ChildRun(Interrupted, false)
  {
    if n == 0 then
      ChildRun(UnsafeReadResult(true, 0, 0), false)
    else
      // after the flag test the signal is only noted in the flag; it
      // aborts read(2) only if it finds the call blocked in the kernel
      var kernel := PipeRead(hasByte);
      var aborted := kernel.Blocks? && window < n;
      if aborted then ChildRun(UnsafeReadResult(false, -1, EINTR), false)
      else ChildRun(UnsafeReadResult(false, kernel.result, 0), true)
  }

  /**
   * Whether the signal came before the read could take effect: always on
   * an empty pipe (the nudge follows the signal), and otherwise while the
   * kernel entry instruction has not yet executed.
   */
  predicate SignalFirst(hasByte: bool, n: nat, kernelStep: nat) {
    !hasByte || n <= kernelStep
  }

  /** The race checker's verdict: interrupted without effect, or normal with the byte read. */
  predicate Acceptable(run: ChildRun, signalFirst: bool) {
    if signalFirst then run == ChildRun(Interrupted, false) else run == ChildRun(Normal, true)
  }

  /** The safe read passes the race checker at every step N, and is never WEIRD. */
  lemma SafeReadPassesEveryStep(s: seq<SyscallEntry>, k: nat, hasByte: bool, n: nat, signum: int)
    requires WellFormedRegistry(s) && k < Consulted(s)
    ensures Acceptable(SafeChild(s, s[k], hasByte, n, signum), SignalFirst(hasByte, n, KernelStep(s[k])))
    ensures SafeChild(s, s[k], hasByte, n, signum).result != Weird
  {
    GuardedCallRaceFree(s, k, PipeRead(hasByte), n, signum);
  }

  /**
   * The unsafe read has a lost-wakeup window: a signal arriving after the
   * flag test and up to read(2)'s kernel entry is only noted in the flag,
   * and the read goes on to take the byte and report NORMAL where the race
   * checker expects INTERRUPTED. On an empty pipe the read blocks until the
   * nudge first.
   */
  lemma UnsafeReadLosesWakeup(window: nat, hasByte: bool, n: nat)
    requires 1 <= n <= window
    ensures UnsafeChild(window, hasByte, n) == ChildRun(Normal, true)
    ensures !Acceptable(UnsafeChild(window, hasByte, n), SignalFirst(hasByte, n, window))
  {
  }

  /** Outside that window the unsafe read behaves. */
  lemma UnsafeReadOutsideWindow(window: nat, hasByte: bool, n: nat)
    requires n == 0 || window < n
    ensures Acceptable(UnsafeChild(window, hasByte, n), SignalFirst(hasByte, n, window))
  {
  }
}
