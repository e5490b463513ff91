/**
 * The library's test suite (tests/suite.c): error_wrap, the scenarios of
 * test_received_flag and test_tsd as traces over the protocol model, and
 * the exit status main accumulates.
 */
module Suite {
  import opened Wrappers
  import opened Registry
  import opened Sigsafe

  /** How a called function reports failure. */
  datatype ErrorReturnType =
    | Direct    // pthread functions: 0 or an error number
    | Negative  // sigsafe functions: >= 0 or a negated error number
    | Errno     // old-school functions: >= 0 or -1 with the number in errno

  /** error_wrap's result: the value it was given, and the error number it reports, if any. */
  datatype Wrapped = Wrapped(value: int, report: Option<int>)

  function ErrorWrap(retval: int, errno: int, t: ErrorReturnType): (w: Wrapped)
    ensures w.value == retval
    ensures w.report.Some? <==> (if t == Direct then retval != 0 else retval < 0)
    ensures w.report.Some? ==> w.report.value == match t
      case Direct => retval
      case Negative => -retval
      case Errno => errno
  {
    if t.Errno? && retval < 0 then Wrapped(retval, Some(errno))
    else if t.Direct? && retval != 0 then Wrapped(retval, Some(retval))
    else if t.Negative? && retval < 0 then Wrapped(retval, Some(-retval))
    else Wrapped(retval, None)
  }

  /**
   * Under the NEGATIVE convention a wrapper's outcome is reported exactly
   * when it failed: EINTR when interrupted, the kernel's own error number
   * when the kernel failed, nothing on success.
   */
  lemma WrapperFailuresReported(s: seq<SyscallEntry>, k: nat, installed: bool, received: bool,
                                kernel: KernelCall, inj: Injection, errno: int)
    requires WellFormedRegistry(s) && k < Consulted(s)
    ensures var o := Run(s, s[k], installed, received, kernel, inj);
      ErrorWrap(o.result, errno, Negative).report ==
        if !o.completed then Some(EINTR)
        else if kernel.result < 0 then Some(-kernel.result)
        else None
  {
    NoEintrAfterCompletion(s, k, installed, received, kernel, inj);
  }

  /**
   * main: the exit status is 0 exactly when every test returned 0; the
   * test results are OR-ed together as C ints.
   */
  method MainExitCode(results: seq<bv32>) returns (code: int)
    ensures code == (if forall i :: 0 <= i < |results| ==> results[i] == 0 then 0 else 1)
  {
    var result: bv32 := 0;
    var i := 0;
    while i < |results|
      invariant 0 <= i <= |results|
      invariant result == 0 <==> forall j :: 0 <= j < i ==> results[j] == 0
    {
      result := result | results[i];
      i := i + 1;
    }
    code := if result == 0 then 0 else 1;
  }

  /** test_tsd_usr1 and subthread_tsd_destructor. */
  const TestTsdUsr1: Handler := Handler(1)
  const SubthreadTsdDestructor: Destructor := Destructor(1)

  /**
   * What one of the suite's callbacks does to the int its user data points
   * to, when that is `addr`; None when test_tsd_usr1 aborts.
   */
  function CallbackEffect(c: Invocation, addr: int, v: int): (r: Option<int>)
    ensures c.userData != addr ==> r == Some(v)
    ensures c.HandlerCall? && c.handler == TestTsdUsr1 && c.userData == addr ==> (r.Some? <==> v == 26) && (r.Some? ==> r.value == 37)
    ensures c == DestructorCall(SubthreadTsdDestructor, addr) ==> r == Some(42)
  {
    match c
    case HandlerCall(h, _, d) =>
      if h == TestTsdUsr1 && d == addr then (if v != 26 then None else Some(37)) else Some(v)
    case DestructorCall(d, u) =>
      if d == SubthreadTsdDestructor && u == addr then Some(42) else Some(v)
  }

  /** The int at `addr` after the callbacks `calls` have run, in order, starting from `v`. */
  function ApplyCallbacks(calls: seq<Invocation>, addr: int, v: int): (r: Option<int>)
    ensures (forall i :: 0 <= i < |calls| ==> calls[i].userData != addr) ==> r == Some(v)
    decreases |calls|
  {
    if calls == [] then Some(v)
    else match CallbackEffect(calls[0], addr, v)
      case None => None
      case Some(v') => ApplyCallbacks(calls[1..], addr, v')
  }

  /**
   * test_received_flag: a quiet call succeeds; after raise(SIGALRM) two
   * calls in a row return -EINTR (the flag is sticky); after
   * sigsafe_clear_received the call succeeds again.
   */
  method TestReceivedFlag(p: Process, t: ThreadState, nanosleep: SyscallEntry, callerPc: int) returns (result: int)
    requires p.Valid() && EntryWellFormed(nanosleep) && SIGALRM in p.safeSignals
    requires t.installed && !t.signalReceived
    modifies t`signalReceived, p`invocations
    ensures p.Valid()
    ensures result == 0 && !t.signalReceived
  {
    var res, done := p.Syscall(t, nanosleep, Returns(0), NoSignal);
    if res != 0 {
      return 1;
    }
    var resume := p.DeliverAt(t, SIGALRM, callerPc);
    res, done := p.Syscall(t, nanosleep, Returns(0), NoSignal);
    if res != -EINTR {
      return 1;
    }
    res, done := p.Syscall(t, nanosleep, Returns(0), NoSignal);
    if res != -EINTR {
      return 1;
    }
    var userData := p.ClearReceived(t);
    res, done := p.Syscall(t, nanosleep, Returns(0), NoSignal);
    if res != 0 {
      return 1;
    }
    return 0;
  }

  /**
   * test_tsd_subthread: installs its TSD (user data: the address of an int,
   * then set to 26) with a destructor, installs test_tsd_usr1 for SIGUSR1,
   * raises SIGUSR1 and finds that the handler, given its user data, set the
   * int to 37. It never clears its flag.
   */
  method TestTsdSubthread(p: Process, ts: ThreadState, addr: int, callerPc: int) returns (ret: int)
    requires p.Valid() && !ts.installed
    modifies ts, p`safeSignals, p.userHandlers, p`invocations
    ensures p.Valid() && ret == 0
    ensures ts.installed && ts.signalReceived && ts.userData == addr && ts.destructor == Some(SubthreadTsdDestructor)
    ensures |old(p.invocations)| <= |p.invocations|
    ensures ApplyCallbacks(p.invocations[|old(p.invocations)|..], addr, 26) == Some(37)
  {
    var start := |p.invocations|;
    var r := p.InstallTsd(ts, addr, Some(SubthreadTsdDestructor));
    assert ErrorWrap(r, 0, Negative).report == None;
    r := p.InstallHandler(SIGUSR1, Some(TestTsdUsr1));
    assert ErrorWrap(r, 0, Negative).report == None;
    var resume := p.DeliverAt(ts, SIGUSR1, callerPc);
    assert p.invocations[start..] == [HandlerCall(TestTsdUsr1, SIGUSR1, addr)];
    assert p.invocations[start..][1..] == [];
    assert CallbackEffect(p.invocations[start..][0], addr, 26) == Some(37);
    assert ApplyCallbacks(p.invocations[start..][1..], addr, 37) == Some(37);
    assert ApplyCallbacks(p.invocations[start..], addr, 26) == Some(37);
    if ApplyCallbacks(p.invocations[start..], addr, 26) != Some(37) {
      return 1;
    }
    return 0;
  }

  /**
   * test_tsd: the subthread passes, its destructor set the int to 42 at
   * thread exit, and the subthread's uncleared flag does not make the main
   * thread's call return -EINTR.
   */
  method TestTsd(p: Process, tm: ThreadState, nanosleep: SyscallEntry, addr: int, callerPc: int) returns (result: int)
    requires p.Valid() && EntryWellFormed(nanosleep)
    requires tm.installed && !tm.signalReceived
    modifies p`safeSignals, p.userHandlers, p`invocations, tm`signalReceived
    ensures p.Valid()
    ensures result == 0 && !tm.signalReceived
  {
    var start := |p.invocations|;
    var ts := new ThreadState();
    var res := TestTsdSubthread(p, ts, addr, callerPc);
    var mid := p.invocations;
    p.ExitThread(ts);
    assert p.invocations[start..] == mid[start..] + [DestructorCall(SubthreadTsdDestructor, addr)];
    ApplyCallbacksAppend(mid[start..], [DestructorCall(SubthreadTsdDestructor, addr)], addr, 26);
    if res != 0 {
      return 1;
    }
    if ApplyCallbacks(p.invocations[start..], addr, 26) != Some(42) {
      return 1;
    }
    var r, done := p.Syscall(tm, nanosleep, Returns(0), NoSignal);
    if r != 0 {
      return 1;
    }
    return 0;
  }

  /** Running two batches of callbacks runs the first, then the second from where it left the int. */
  lemma {:induction false} ApplyCallbacksAppend(a: seq<Invocation>, b: seq<Invocation>, addr: int, v: int)
    ensures ApplyCallbacks(a + b, addr, v) ==
      match ApplyCallbacks(a, addr, v)
      case None => None
      case Some(w) => ApplyCallbacks(b, addr, w)
    decreases |a|
  {
    if a == [] {
      assert a + b == b;
    } else {
      assert (a + b)[0] == a[0];
      assert (a + b)[1..] == a[1..] + b;
      match CallbackEffect(a[0], addr, v)
      case None =>
      case Some(v') => ApplyCallbacksAppend(a[1..], b, addr, v');
    }
  }

  /**
   * main: installs SIGALRM without a user handler and the main thread's
   * TSD, runs test_received_flag and test_tsd, and exits 0.
   */
  method RunSuite(syscalls: array<SyscallEntry>, nanosleep: SyscallEntry, tsdAddr: int, subthreadAddr: int, callerPc: int)
    returns (exitCode: int)
    requires HasSentinel(syscalls[..]) && EntryWellFormed(nanosleep)
    ensures exitCode == 0
  {
    var p := new Process(syscalls);
    var r := p.InstallHandler(SIGALRM, None);
    assert ErrorWrap(r, 0, Negative).report == None;
    var tm := new ThreadState();
    r := p.InstallTsd(tm, tsdAddr, None);
    var r1 := TestReceivedFlag(p, tm, nanosleep, callerPc);
    var r2 := TestTsd(p, tm, nanosleep, subthreadAddr, callerPc);
    exitCode := MainExitCode([r1 as bv32, r2 as bv32]);
  }
}
