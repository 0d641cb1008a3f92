/** Descriptor tables, and the descriptor work of communication/shell.c that one process
    does on its own table: `redirect` and `fd_check`. */
module Descriptors {

  datatype Mode = Read | Truncate | Append

  /** What a descriptor is open on.  The two ends of a pipe carry the pipe's number. */
  datatype Description =
    | Inherited(number: int)
    | PipeRead(pipe: nat)
    | PipeWrite(pipe: nat)
    | File(name: string, mode: Mode)

  type Table = map<int, Description>

  const STDIN := 0
  const STDOUT := 1
  const STDERR := 2

  /** The lowest descriptor from `from` on that is not open (File Descriptor Allocation,
      section 2.14 of the System Interfaces volume of POSIX.1-2008). */
  function LowestFree(open: set<int>, from: int): (fd: int)
    ensures from <= fd && fd !in open
    ensures forall k :: from <= k < fd ==> k in open
    decreases open
  {
    if from in open then
      var fd := LowestFree(open - {from}, from + 1);
      assert forall k :: from + 1 <= k < fd ==> k in open - {from};
      fd
    else
      from
  }

  /** `close`; closing a descriptor that is not open fails and changes nothing. */
  function Closed(fds: Table, fd: int): Table {
    fds - {fd}
  }

  /** `dup2`; it fails, changing nothing, when `from` is not open. */
  function Duplicated(fds: Table, from: int, to: int): Table {
    if from in fds then fds[to := fds[from]] else fds
  }

  /** `open`; files in `blocked` cannot be opened, and the result is then -1. */
  function Opened(fds: Table, file: Description, blocked: set<Description>): (Table, int) {
    if file in blocked then (fds, -1)
    else
      var fd := LowestFree(fds.Keys, 0);
      (fds[fd := file], fd)
  }

  /** `pipe`: the read end gets the lowest free descriptor, the write end the next. */
  function Piped(fds: Table, pipe: nat): (Table, int, int) {
    var r := LowestFree(fds.Keys, 0);
    var fds1 := fds[r := PipeRead(pipe)];
    var w := LowestFree(fds1.Keys, 0);
    (fds1[w := PipeWrite(pipe)], r, w)
  }

  /** No descriptor from 3 to 19 is open. */
  predicate Tidy(fds: Table) {
    forall fd | 3 <= fd < 20 :: fd !in fds
  }

  /** Where a command's input comes from and its output goes, as `redirect` is told. */
  datatype Redirection = Redirection(src: int, srcfile: string, dst: int, dstfile: string, append: bool)

  function InputRedirected(fds: Table, r: Redirection, background: bool, blocked: set<Description>): Table {
    var (srcfile, src) :=
      if r.src == STDIN && background then ("/dev/null", -1) else (r.srcfile, r.src);
    var (fds1, src1) := if srcfile != "" then Opened(fds, File(srcfile, Read), blocked) else (fds, src);
    var fds2 := Duplicated(fds1, src1, STDIN);
    if src1 != STDIN then Closed(fds2, src1) else fds2
  }

  function OutputRedirected(fds: Table, r: Redirection, blocked: set<Description>): Table {
    var mode := if r.append then Append else Truncate;
    var (fds1, dst1) := if r.dstfile != "" then Opened(fds, File(r.dstfile, mode), blocked) else (fds, r.dst);
    var fds2 := Duplicated(fds1, dst1, STDOUT);
    if dst1 != STDOUT then Closed(fds2, dst1) else fds2
  }

  function Redirected(fds: Table, r: Redirection, background: bool, blocked: set<Description>): Table {
    OutputRedirected(InputRedirected(fds, r, background, blocked), r, blocked)
  }

  /** A process as its descriptor table; `trail` remembers which descriptors were open after
      each `pipe`, `open` and `close`. */
  class Process {
    var fds: Table
    ghost var trail: seq<set<int>>

    constructor (fds: Table)
      ensures this.fds == fds && trail == []
    {
      this.fds, trail := fds, [];
    }

    method Close(fd: int)
      modifies this
      ensures fds == Closed(old(fds), fd) && trail == old(trail) + [fds.Keys]
    {
      fds := fds - {fd};
      trail := trail + [fds.Keys];
    }

    method Dup2(from: int, to: int)
      modifies this
      ensures fds == Duplicated(old(fds), from, to) && trail == old(trail)
    {
      if from in fds {
        fds := fds[to := fds[from]];
      }
    }

    method Open(file: Description, blocked: set<Description>) returns (fd: int)
      modifies this
      ensures (fds, fd) == Opened(old(fds), file, blocked)
    {
      if file in blocked {
        return -1;
      }
      fd := LowestFree(fds.Keys, 0);
      fds := fds[fd := file];
      trail := trail + [fds.Keys];
    }

    method Pipe(pipe: nat) returns (r: int, w: int)
      modifies this
      ensures (fds, r, w) == Piped(old(fds), pipe) && trail == old(trail) + [fds.Keys]
    {
      r := LowestFree(fds.Keys, 0);
      fds := fds[r := PipeRead(pipe)];
      w := LowestFree(fds.Keys, 0);
      fds := fds[w := PipeWrite(pipe)];
      trail := trail + [fds.Keys];
    }

    /** `fd_check`; what is false here ends the calling process. */
    method FdCheck() returns (ok: bool)
      ensures ok <==> forall fd | 3 <= fd < 20 :: fd !in fds
    {
      ok := true;
      for fd := 3 to 20
        invariant ok <==> forall k | 3 <= k < fd :: k !in fds
      {
        if fd in fds {
          ok := false;
        }
      }
    }

    /** `redirect`, up to and with its `fd_check`. */
    method Redirect(r: Redirection, background: bool, blocked: set<Description>) returns (ok: bool)
      modifies this
      ensures fds == Redirected(old(fds), r, background, blocked)
      ensures ok <==> Tidy(fds)
    {
      var srcfd, srcfile := r.src, r.srcfile;
      if srcfd == STDIN && background {
        srcfile := "/dev/null";
        srcfd := -1;
      }
      if srcfile != "" {
        srcfd := Open(File(srcfile, Read), blocked);
      }
      Dup2(srcfd, STDIN);
      if srcfd != STDIN {
        Close(srcfd);
      }
      assert fds == InputRedirected(old(fds), r, background, blocked);
      var dstfd := r.dst;
      if r.dstfile != "" {
        var mode := if r.append then Append else Truncate;
        dstfd := Open(File(r.dstfile, mode), blocked);
      }
      Dup2(dstfd, STDOUT);
      if dstfd != STDOUT {
        Close(dstfd);
      }
      ok := FdCheck();
    }
  }
}
