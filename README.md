# sigsafe — a Dafny model of race-free signal delivery to blocking system calls

sigsafe lets a thread blocked in a system call notice a signal promptly and
without races. Each thread installs a record (`sigsafe_tsd`) holding a sticky
`signal_received` flag and user data. The `sigsafe_*` wrappers check the flag,
then enter a guarded span of instructions ending in the kernel entry. The
process-wide signal handler sets the flag, runs the user handler registered
in `user_handlers[]`, and, when the interrupted program counter lies inside a
guarded span listed in the `sigsafe_syscalls` registry, moves it to that
span's landing address. From there the wrapper returns `-EINTR`.

This project models:

- `registry.dfy` (module `Registry`): the sentinel-terminated registry and
  `sighandler_for_platform`, the loop that rewrites the saved program counter.
- `sigsafe.dfy` (module `Sigsafe`): the per-thread record and the process
  state as classes; `sigsafe_install_handler`, `sigsafe_install_tsd`,
  `sigsafe_clear_received`, signal delivery and thread exit; the generic
  wrapper `CHECK -> ENTER_KERNEL -> DONE | INTERRUPTED`. A signal arrives as an
  explicit event "after N instructions of the wrapper". `Run` is the wrapper's
  outcome as a function of that N.
- `race_checker.dfy` (module `RaceChecker`): the race checker's read test,
  i.e. `do_safe_read`, `do_unsafe_read` and `nudge_read`, with the pipe as a
  byte queue, and the verdict for every step N.
- `suite.dfy` (module `Suite`): `error_wrap`, the test scenarios as method
  traces, and `main`'s exit status.
- `wrappers.dfy`: an `Option` type.

Constants are the Linux/x86 values: `EINTR` 4, `EINVAL` 22, `SIGKILL` 9,
`SIGUSR1` 10, `SIGALRM` 14, `SIGSTOP` 19, `SIGSAFE_NSIG` 65. Addresses are
integers, with 0 for NULL.

Layout of a trampoline: the instruction run at step i sits at `address + i`.
The steps before `minjmp` end with the load of the flag. `[minjmp, maxjmp]` is
the guarded span, and `maxjmp` is the kernel entry instruction. `maxjmp + 1` is
the return point. Once the kernel entry has executed, a signal finds the thread
at the return point if the call returned at once, or at `maxjmp` while the
call is blocked, whatever its step number; the model does not follow the
wrapper's instructions after the return point. A well-formed registry (`WellFormedRegistry`) has
non-overlapping trampolines and landing addresses outside every span.

The model follows the header's own contracts. For example, calling
`sigsafe_install_tsd` twice is a precondition violation (`@pre`,
src/sigsafe.h:306), not a failure the call reports.

## Model

| member | source | states |
|---|---|---|
| `Registry.Consulted` | src/alpha-osf1/sighandler_platform.c:19 | the entries consulted are exactly those before the first entry with a NULL address |
| `Registry.FirstMatch` | src/alpha-osf1/sighandler_platform.c:19-24 | the index found is a consulted entry whose inclusive span holds the pc and no earlier entry's does; none is found only when no consulted span holds it |
| `Registry.NewPc` | src/alpha-osf1/sighandler_platform.c:18-27 | the thread resumes where it was interrupted when no consulted span holds the pc, and otherwise at the landing address of the first consulted entry whose span holds it |
| `Registry.FirstMatchIsFirst` | src/alpha-osf1/sighandler_platform.c:19-25 | the first consulted entry holding the pc is the one the scan stops at |
| `Registry.SighandlerForPlatform` | src/alpha-osf1/sighandler_platform.c:15-28 | the saved pc becomes the first matching entry's jmpto, or stays as it was; only the pc is written and the table is not modified |
| `Registry.LookupIgnoresEntriesAfterSentinel` | src/alpha-osf1/sighandler_platform.c:19 | whatever follows the sentinel changes no lookup decision |
| `Registry.ZoneRedirect` | src/alpha-osf1/sighandler_platform.c:20-24 | in a well-formed registry a pc inside entry k's span (bounds inclusive) is redirected to k's jmpto, whatever the entry order |
| `Registry.OutsideZonesUnchanged` | src/alpha-osf1/sighandler_platform.c:19-28 | a pc in no consulted span is left unchanged |
| `Registry.ReturnPointNotRedirected` | src/sigsafe.h:348-349 | the instruction after a kernel entry is in no guarded span, so a completed call is never turned into -EINTR |
| `Registry.RedirectIdempotent` | src/alpha-osf1/sighandler_platform.c:18-24 | a second lookup from where the first one sent the thread changes nothing |
| `Sigsafe.ThreadState.constructor` | src/sigsafe.h:475-479 | a new thread has no TSD and a clear flag |
| `Sigsafe.Process.constructor` | src/sigsafe.h:489-492 | the process has the registry and `SIGSAFE_NSIG` empty handler slots |
| `Sigsafe.Process.InstallHandler` | src/sigsafe.h:278-299 | returns 0 and fills slot signum for a catchable number, -EINVAL and no change otherwise; the last registration wins |
| `Sigsafe.Process.InstallTsd` | src/sigsafe.h:301-313 | requires that the thread has no TSD yet; afterwards the TSD holds the user data and destructor, with a clear flag |
| `Sigsafe.Process.ClearReceived` | src/sigsafe.h:315-335 | requires an installed TSD; clears the flag and returns the installed user data |
| `Sigsafe.Process.Deliver` | src/sigsafe.h:278-292 | without TSD nothing happens; otherwise the flag (not the number) is set, the user handler is called with the thread's user data, and the pc is redirected by the registry; no other thread's state changes |
| `Sigsafe.Process.DeliverAt` | src/sigsafe.h:278-292 | delivery to a thread interrupted at a given pc: the flag and the handler call as for `Deliver`, and the pc it resumes at is the registry's redirect of that pc |
| `Sigsafe.Dispatch` | src/sigsafe.h:281-291 | a delivery calls the user handler at most once, exactly when the thread has a TSD and a handler is registered for the signal, and passes it the signal number and the thread's user data |
| `Sigsafe.Process.ExitThread` | src/sigsafe.h:307-310 | at thread exit the destructor runs once, with that thread's user data |
| `Sigsafe.Process.Syscall` | src/sigsafe.h:364-369 | the wrapper's result and completion are `Run`'s; a signal during the call sets the flag and is dispatched exactly once |
| `Sigsafe.Run` | src/sigsafe.h:337-349 | a wrapper returns either -EINTR or the kernel's own result; a call that does not complete returns -EINTR; with the TSD installed and the flag set, the call never completes |
| `Sigsafe.Process.EnterKernel` | src/sigsafe.h:344-349 | once the kernel has been entered with the flag clear, the outcome is `Run`'s; a signal after the kernel entry sets the flag and dispatches once, and turns the call into -EINTR only when the registry redirects the pc it interrupted |
| `Sigsafe.GuardedCallRaceFree` | src/sigsafe.h:339-349 | with the flag clear, a signal up to the kernel entry, or while the kernel blocks, gives -EINTR with no effect; a signal after completion leaves the kernel's result |
| `Sigsafe.StickyFlag` | src/sigsafe.h:340-343 | with the flag set, every call returns -EINTR without entering the kernel |
| `Sigsafe.QuietCallReturnsKernelResult` | src/sigsafe.h:345-349 | with no signal and the flag clear, the call returns the kernel's result |
| `Sigsafe.UninstalledIgnoresSignals` | src/sigsafe.h:301-305 | before the TSD is installed, signals change nothing about a call |
| `Sigsafe.NoEintrAfterCompletion` | src/sigsafe.h:346-349 | a completed call returns the kernel's own value; a call that did not complete returns -EINTR |
| `Sigsafe.ClearCoalesces` | src/sigsafe.h:322-325 | two signals before one clear are cleared together; the next quiet call returns the kernel's result |
| `RaceChecker.SafeReadResult` | tests/race_checker/races_io.c:43-56 | -EINTR is INTERRUPTED, 1 is NORMAL, every other value is WEIRD |
| `RaceChecker.UnsafeReadResult` | tests/race_checker/races_io.c:58-74 | a set flag is INTERRUPTED whatever the read returned; otherwise -1 with EINTR is INTERRUPTED, 1 is NORMAL, anything else WEIRD |
| `RaceChecker.SafeChild` | tests/race_checker/races_io.c:43-56 | whatever step the signal arrives at, a sigsafe_read run is never WEIRD, and a read that consumed no byte reports INTERRUPTED |
| `RaceChecker.UnsafeChild` | tests/race_checker/races_io.c:58-74 | a plain read run is never WEIRD; it reports NORMAL exactly when it consumed the byte; a signal before the flag test gives INTERRUPTED |
| `RaceChecker.PipeRead` | tests/race_checker/races_io.c:66 | the kernel side of the one-byte read returns 1 at once exactly when a byte is waiting, and otherwise blocks until the nudge and then returns 1 |
| `RaceChecker.Pipe.constructor` | tests/race_checker/races_io.c:27-34 | a new pipe is empty |
| `RaceChecker.Pipe.Nudge` | tests/race_checker/races_io.c:76-80 | appends exactly the byte 26 |
| `RaceChecker.Pipe.ReadByte` | tests/race_checker/races_io.c:66 | a one-byte read takes the oldest byte, or would block on an empty pipe |
| `RaceChecker.NudgeThenRead` | tests/race_checker/races_io.c:76-79 | after a nudge, a one-byte read yields 26 |
| `RaceChecker.SafeReadPassesEveryStep` | tests/race_checker/races_io.c:43-56 | for every step N the safe read is INTERRUPTED without consuming the byte if the signal came first, and NORMAL with the byte otherwise; never WEIRD |
| `RaceChecker.UnsafeReadLosesWakeup` | tests/race_checker/races_io.c:63-66 | a signal between the flag test and the kernel entry of read is lost, whether or not a byte is already waiting: the read takes the byte (after blocking until the nudge on an empty pipe) and reports NORMAL where INTERRUPTED is expected |
| `RaceChecker.UnsafeReadOutsideWindow` | tests/race_checker/races_io.c:58-74 | outside that window the unsafe read gets the verdict right |
| `Suite.ErrorWrap` | tests/suite.c:18-32 | returns retval unchanged; ERRNO and NEGATIVE report exactly when retval < 0, DIRECT when retval != 0; NEGATIVE reports -retval |
| `Suite.WrapperFailuresReported` | tests/suite.c:27-29 | under NEGATIVE a wrapper outcome is reported as EINTR when interrupted, as the kernel's error when the kernel failed, and not at all on success |
| `Suite.CallbackEffect` | tests/suite.c:119-136 | test_tsd_usr1 on the tested int aborts unless it holds 26, and otherwise sets it to 37; subthread_tsd_destructor sets it to 42; a callback whose user data points elsewhere leaves it alone |
| `Suite.ApplyCallbacks` | tests/suite.c:119-136 | running a log of callbacks in order, none of which is given the tested int, leaves it unchanged |
| `Suite.ApplyCallbacksAppend` | tests/suite.c:119-136 | running two logs one after the other is running their concatenation, with an abort in the first ending the run |
| `Suite.MainExitCode` | tests/suite.c:214-224 | the exit status is 0 exactly when every test result is 0, else 1 |
| `Suite.TestReceivedFlag` | tests/suite.c:60-86 | quiet call 0; after raise, -EINTR twice (sticky); after clear, 0 again; the test returns 0 |
| `Suite.TestTsdSubthread` | tests/suite.c:138-160 | the handler gets the subthread's user data and takes its int from 26 to 37; the subthread returns 0 with its flag left set |
| `Suite.TestTsd` | tests/suite.c:162-186 | the destructor sets the int to 42 at thread exit; the main thread's flag stays clear and its call returns 0 |
| `Suite.RunSuite` | tests/suite.c:202-225 | with SIGALRM and the main TSD installed, the modelled tests pass and main exits 0 |

## Left out

- The per-platform syscall lists and the assembly trampolines. Each guarded region is an abstract entry `(address, minjmp, maxjmp, jmpto)`. Only the layout the wrapper relies on is modelled.
- The source of the generic process-wide handler `sighandler` is not part of this model. `Sigsafe.Process.Deliver` models it from the header. Its "no TSD: nothing happens" rule is src/sigsafe.h:281-282. Its order (flag, then user handler, then redirect) is the model's own choice. No outcome depends on that order, because the flag, the `invocations` log and `ctx.pc` are separate state.
- Signal dispositions. The sigsafe handler is assumed to be installed with `SA_RESTART`, the harder case named at src/sigsafe.h:344-345. A signal that catches the thread blocked in the kernel then leaves it at the kernel entry instruction, and `Run` redirects from there. The race checker's plain handler is assumed to be installed without `SA_RESTART`, so a blocked `read(2)` fails with `EINTR`, which is the case `do_unsafe_read` tests (tests/race_checker/races_io.c:67).
- Real asynchrony. Signals arrive at a chosen step, as sequential events. pthread keys, `volatile sig_atomic_t` word tearing and signal masks are not modelled.
- `Sigsafe.Process.InstallTsd`: always returns 0. The allocation or `pthread_setspecific` failure a real build could report is not modelled.
- `Sigsafe.Process.InstallHandler`: -EINVAL covers numbers outside 1..64, SIGKILL and SIGSTOP. Other refusals by a particular libc's `sigaction` are not modelled.
- Kernel calls are atomic (`Returns`) or block until the driver's nudge (`Blocks`). A signal while blocked aborts the call at its restart point, the kernel entry instruction. Partial transfers and `SA_RESTART` details beyond that are not modelled.
- User handlers and destructors are identities logged in `invocations`. Their effect on user memory is interpreted afterwards, which is equivalent because the model is sequential. The suite does this for its own callbacks; an aborting handler ends the run as a failure instead of aborting the process.
- The race checker's driver (`races.c`) and ptrace plumbing are not part of this model. The driver is assumed to deliver the signal after N single steps and then nudge the pipe. `window` is the number of instructions of the plain `read(2)` up to its kernel entry.
- `RaceChecker.SafeChild`, `RaceChecker.UnsafeChild`: the step-indexed runs take a boolean "a byte is already in the pipe" in place of the `Pipe` byte queue. Only `NudgeThenRead` exercises the queue itself, and "consumed" is whether the read completed.
- `RaceChecker.SignalFirst` and `RaceChecker.Acceptable` encode the verdict rule of the race checker's driver, which is not part of this model: INTERRUPTED with nothing consumed when the signal came first, NORMAL with the byte read otherwise.
- `cleanup_pipe` and the descriptors of `create_pipe`, plus the `fprintf`/`strerror` output of `error_wrap`. Only the byte queue and the reported error number are kept.
- `test_pause` and the register-preservation check (tests/suite.c:88-116). They concern calling conventions, and `sigsafe_pause` is not declared in the header. `RunSuite` runs the two other tests.
- The illustrative anti-patterns in the header's documentation (src/sigsafe.h:25-171). The check-then-call race is restated by `UnsafeChild`.
