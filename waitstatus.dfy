/** Wait statuses as `waitpid` reports them on Linux, and the macros of
    <sys/wait.h> (as glibc defines them) that the autograder uses to read them.
    A status is the 32-bit `int` the kernel fills in: the low seven bits hold
    the terminating signal (0 for a normal exit), bit 7 the core-dump flag and
    bits 8 to 15 the exit code. */
module WaitStatus {

  type Status = bv32

  /** Signal numbers on Linux (x86, x86-64 and ARM numbering). */
  const SIGABRT: bv32 := 6
  const SIGBUS: bv32 := 7
  const SIGKILL: bv32 := 9
  const SIGSEGV: bv32 := 11

  /** WEXITSTATUS: bits 8 to 15. */
  function ExitStatus(s: Status): bv32
  {
    (s & 0xff00) >> 8
  }

  /** WTERMSIG: the low seven bits. */
  function TermSig(s: Status): bv32
  {
    s & 0x7f
  }

  /** WIFSIGNALED: the low seven bits name a signal; 0 means a normal exit
      and 0x7f a stopped child. */
  predicate IfSignaled(s: Status)
  {
    (s & 0x7f) != 0 && (s & 0x7f) != 0x7f
  }

  /** WIFEXITED. */
  predicate IfExited(s: Status)
  {
    s & 0x7f == 0
  }

  /** The status of a child that called exit(code). */
  function Exited(code: bv8): (s: Status)
    ensures IfExited(s) && !IfSignaled(s)
    ensures ExitStatus(s) == code as bv32
  {
    (code as bv32) << 8
  }

  /** The status of a child terminated by signal `sig`, with or without a
      core dump. */
  function KilledBy(sig: bv32, core: bool): (s: Status)
    requires 0 < sig < 0x7f
    ensures IfSignaled(s) && !IfExited(s)
    ensures TermSig(s) == sig && ExitStatus(s) == 0
  {
    if core then sig | 0x80 else sig
  }

  /** The value `-1` that a status variable keeps when `waitpid` fails
      before filling it in. */
  const Unfilled: Status := 0xffff_ffff
}
