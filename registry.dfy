/**
 * The guarded-region registry and the platform part of the signal handler
 * (src/alpha-osf1/sighandler_platform.c).
 *
 * Every wrapped system call contributes one entry: its entry address, the
 * inclusive span [minjmp, maxjmp] of instructions from which an arriving
 * signal must abandon the call, and the landing address jmpto that returns
 * -EINTR. The table ends with a sentinel entry whose address is NULL (0).
 * Addresses are plain integers.
 */
module Registry {
  import opened Wrappers

  datatype SyscallEntry = SyscallEntry(name: string, address: int, minjmp: int, maxjmp: int, jmpto: int)

  /** The saved register file of an interrupted thread; only the program counter is named. */
  class Context {
    var pc: int
    var registers: seq<int>

    constructor (pc: int, registers: seq<int>)
      ensures this.pc == pc && this.registers == registers
    {
      this.pc := pc;
      this.registers := registers;
    }
  }

  /** Does the guarded span of `e` contain `pc` (both bounds inclusive)? */
  predicate InZone(e: SyscallEntry, pc: int) {
    e.minjmp <= pc <= e.maxjmp
  }

  /** The number of entries the handler consults: those before the first NULL address. */
  function Consulted(s: seq<SyscallEntry>): (n: nat)
    ensures n <= |s|
    ensures forall j :: 0 <= j < n ==> s[j].address != 0
    ensures n < |s| ==> s[n].address == 0
    decreases |s|
  {
    if |s| == 0 || s[0].address == 0 then 0 else 1 + Consulted(s[1..])
  }

  /** The table is terminated by a sentinel entry. */
  predicate HasSentinel(s: seq<SyscallEntry>) {
    Consulted(s) < |s|
  }

  /** Index of the first consulted entry whose guarded span contains `pc`. */
  function FirstMatch(s: seq<SyscallEntry>, pc: int): (r: Option<nat>)
    ensures r.Some? ==> r.value < Consulted(s) && InZone(s[r.value], pc)
    ensures r.Some? ==> forall j :: 0 <= j < r.value ==> !InZone(s[j], pc)
    ensures r.None? ==> forall j :: 0 <= j < Consulted(s) ==> !InZone(s[j], pc)
    decreases |s|
  {
    if |s| == 0 || s[0].address == 0 then None
    else if InZone(s[0], pc) then Some(0)
    else match FirstMatch(s[1..], pc)
      case None => None
      case Some(k) => Some(k + 1)
  }

  /** The program counter the thread resumes at after the handler has run. */
  function NewPc(s: seq<SyscallEntry>, pc: int): (resume: int)
    ensures (forall j :: 0 <= j < Consulted(s) ==> !InZone(s[j], pc)) ==> resume == pc
    ensures forall k :: 0 <= k < Consulted(s) && InZone(s[k], pc) && (forall j :: 0 <= j < k ==> !InZone(s[j], pc)) ==>
      resume == s[k].jmpto
  {
    match FirstMatch(s, pc)
    case Some(k) => s[k].jmpto
    case None => pc
  }

  /** The handler changed where the thread resumes. */
  predicate Redirected(s: seq<SyscallEntry>, pc: int) {
    NewPc(s, pc) != pc
  }

  /**
   * Scans the table up to the sentinel; the first entry whose span contains
   * the interrupted program counter sends the thread to its landing address.
   * Nothing but the saved program counter is written.
   */
  method SighandlerForPlatform(ctx: Context, table: array<SyscallEntry>)
    requires HasSentinel(table[..])
    modifies ctx`pc
    ensures ctx.pc == NewPc(table[..], old(ctx.pc))
  {
    var pc := ctx.pc;
    var i := 0;
    while table[i].address != 0
      invariant 0 <= i <= Consulted(table[..])
      invariant forall j :: 0 <= j < i ==> !InZone(table[j], pc)
      decreases Consulted(table[..]) - i
    {
      if table[i].minjmp <= pc && pc <= table[i].maxjmp {
        ctx.pc := table[i].jmpto;
        FirstMatchIsFirst(table[..], pc, i);
        return;
      }
      i := i + 1;
    }
  }

  /** The first consulted entry containing `pc` is the one FirstMatch finds. */
  lemma FirstMatchIsFirst(s: seq<SyscallEntry>, pc: int, k: nat)
    requires k < Consulted(s) && InZone(s[k], pc)
    requires forall j :: 0 <= j < k ==> !InZone(s[j], pc)
    ensures FirstMatch(s, pc) == Some(k)
  {
  }

  /**
   * Entries behind the sentinel are never consulted: replacing everything
   * after it changes no decision.
   */
  lemma {:induction false} LookupIgnoresEntriesAfterSentinel(s: seq<SyscallEntry>, tail: seq<SyscallEntry>, pc: int)
    requires HasSentinel(s)
    ensures FirstMatch(s[..Consulted(s) + 1] + tail, pc) == FirstMatch(s, pc)
    decreases |s|
  {
    var t := s[..Consulted(s) + 1] + tail;
    if s[0].address == 0 {
      assert t[0] == s[0];
    } else {
      assert t[0] == s[0];
      assert Consulted(s) == 1 + Consulted(s[1..]);
      assert t[1..] == s[1..][..Consulted(s[1..]) + 1] + tail;
      LookupIgnoresEntriesAfterSentinel(s[1..], tail, pc);
    }
  }

  /**
   * A well-formed trampoline: its entry address precedes the guarded span,
   * which is non-empty.
   */
  predicate EntryWellFormed(e: SyscallEntry) {
    0 < e.address < e.minjmp <= e.maxjmp
  }

  /**
   * The registry a correct build provides: a sentinel, well-formed entries,
   * trampolines whose footprints [address, maxjmp + 1] do not overlap, and
   * landing addresses outside every guarded span.
   */
  ghost predicate WellFormedRegistry(s: seq<SyscallEntry>) {
    && HasSentinel(s)
    && (forall k :: 0 <= k < Consulted(s) ==> EntryWellFormed(s[k]))
    && (forall j, k :: 0 <= j < k < Consulted(s) ==>
          s[j].maxjmp + 1 < s[k].address || s[k].maxjmp + 1 < s[j].address)
    && (forall j, k :: 0 <= j < Consulted(s) && 0 <= k < Consulted(s) ==> !InZone(s[j], s[k].jmpto))
  }

  /**
   * In a well-formed registry the order of entries does not matter: a signal
   * inside the span of entry k lands at k's landing address.
   */
  lemma ZoneRedirect(s: seq<SyscallEntry>, k: nat, pc: int)
    requires WellFormedRegistry(s)
    requires k < Consulted(s) && InZone(s[k], pc)
    ensures NewPc(s, pc) == s[k].jmpto && Redirected(s, pc)
  {
    forall j | 0 <= j < k
      ensures !InZone(s[j], pc)
    {
      assert s[j].maxjmp + 1 < s[k].address || s[k].maxjmp + 1 < s[j].address;
    }
    FirstMatchIsFirst(s, pc, k);
    assert !InZone(s[k], s[k].jmpto);
  }

  /** A program counter outside every consulted span is left as it is. */
  lemma OutsideZonesUnchanged(s: seq<SyscallEntry>, pc: int)
    requires forall j :: 0 <= j < Consulted(s) ==> !InZone(s[j], pc)
    ensures NewPc(s, pc) == pc && !Redirected(s, pc)
  {
  }

  /**
   * The return point just past the kernel entry instruction of a consulted
   * trampoline lies in no guarded span: once the system call has completed a
   * signal no longer turns the call into -EINTR.
   */
  lemma ReturnPointNotRedirected(s: seq<SyscallEntry>, k: nat)
    requires WellFormedRegistry(s)
    requires k < Consulted(s)
    ensures NewPc(s, s[k].maxjmp + 1) == s[k].maxjmp + 1
  {
    forall j | 0 <= j < Consulted(s)
      ensures !InZone(s[j], s[k].maxjmp + 1)
    {
      if j < k {
        assert s[j].maxjmp + 1 < s[k].address || s[k].maxjmp + 1 < s[j].address;
      } else if k < j {
        assert s[k].maxjmp + 1 < s[j].address || s[j].maxjmp + 1 < s[k].address;
      }
    }
    OutsideZonesUnchanged(s, s[k].maxjmp + 1);
  }

  /**
   * Redirecting is idempotent in a well-formed registry: a second signal
   * arriving where the first one sent the thread makes no further change.
   */
  lemma RedirectIdempotent(s: seq<SyscallEntry>, pc: int)
    requires WellFormedRegistry(s)
    ensures NewPc(s, NewPc(s, pc)) == NewPc(s, pc)
  {
    match FirstMatch(s, pc)
    case None =>
    case Some(k) =>
      forall j | 0 <= j < Consulted(s)
        ensures !InZone(s[j], s[k].jmpto)
      {
      }
      OutsideZonesUnchanged(s, s[k].jmpto);
  }
}
