/** The shell of communication/shell.c as it runs: `invoke`, `command`, `wait_and_display` and
    `start_shell`, with its input, its descriptor table, its children and its memory. */
module Shell {
  import opened Wrappers
  import opened Lexer
  import opened Descriptors
  import opened Launching
  import opened CommandLine
  import opened Memory
  import opened Frames
  import opened Sessions

  class Shell {
    const stdin: Stdin
    const proc: Process             // the shell's own descriptors
    const heap: Heap                // the shell's own memory
    const blocked: set<Description> // the files no process can open
    var nextPipe: nat
    var nextPid: int
    var children: seq<Child>        // every child forked so far
    var unreaped: set<int>          // the children not waited for yet
    var displayed: seq<int>         // the children whose status was shown

    ghost predicate Valid()
      reads this, heap
    {
      && heap.Valid()
      && 1 <= nextPid && (forall pid | pid in unreaped :: 0 < pid < nextPid)
    }

    ghost function K(): Kernel
      reads this, proc
    {
      Kernel(proc.fds, proc.trail, nextPipe, nextPid, children, blocked)
    }

    constructor (stdin: Stdin, fds: Table, blocked: set<Description>)
      ensures Valid() && fresh(proc) && fresh(heap)
      ensures this.stdin == stdin && this.blocked == blocked
      ensures K() == Kernel(fds, [], 0, 1, [], blocked)
      ensures unreaped == {} && displayed == [] && heap.blocks == map[] && heap.freed == {}
    {
      this.stdin, this.blocked := stdin, blocked;
      proc := new Process(fds);
      heap := new Heap();
      nextPipe, nextPid, children, unreaped, displayed := 0, 1, [], {}, [];
    }

    /** The child's side of `fork`: it works on its own copy of the descriptors. */
    method Fork(args: seq<string>, r: Redirection, background: bool, closefd: int) returns (child: Child)
      ensures child == ForkedChild(K(), Stage(args, r), background, closefd)
    {
      var process := new Process(proc.fds);
      if closefd != -1 {
        process.Close(closefd);
      }
      var ok := process.Redirect(r, background, blocked);
      child := Child(nextPid, args, process.fds, ok, !background);
    }

    /** The shell's side of `fork`: one more child. */
    method Spawn(args: seq<string>, r: Redirection, background: bool, closefd: int) returns (pid: int)
      requires Valid()
      modifies `nextPid, `children, `unreaped
      ensures Valid() && pid == old(nextPid) && nextPid == pid + 1
      ensures children == old(children) + [ForkedChild(old(K()), Stage(args, r), background, closefd)]
      ensures Adds(old(unreaped), old(nextPid), nextPid, unreaped)
    {
      var child := Fork(args, r, background, closefd);
      pid := nextPid;
      nextPid := nextPid + 1;
      children := children + [child];
      unreaped := unreaped + {pid};
    }

    /** The shell's copies of the pipe ends that a child was given are closed. */
    method CloseGiven(r: Redirection)
      modifies proc
      ensures var k1 := if r.src > STDOUT then KernelClosed(old(K()), r.src) else old(K());
              K() == if r.dst > STDOUT then KernelClosed(k1, r.dst) else k1
    {
      if r.src > STDOUT {
        proc.Close(r.src);
      }
      if r.dst > STDOUT {
        proc.Close(r.dst);
      }
    }

    /** `invoke`. */
    method Invoke(argc: nat, argv: array<int>, r: Redirection, background: bool, closefd: int) returns (pid: int)
      requires Valid() && argc <= argv.Length && forall i | 0 <= i < argc :: argv[i] in heap.blocks
      modifies `nextPid, `children, `unreaped, proc
      ensures Valid()
      ensures (K(), pid) == Invoked(old(K()), Stage(Strings(heap.blocks, argv[..argc]), r), background, closefd)
      ensures Adds(old(unreaped), old(nextPid), nextPid, unreaped)
    {
      if argc == 0 {
        return 0;
      }
      if Builtin(heap.blocks[argv[0]]) {
        return 0;
      }
      pid := Spawn(Strings(heap.blocks, argv[..argc]), r, background, closefd);
      CloseGiven(r);
    }

    /** The end of `command` for one stage: its pipe, if the caller wants one, and its process. */
    method Start(argc: nat, argv: array<int>, r: Redirection, makepipe: bool, background: bool)
      returns (pid: int, pipefd: int)
      requires Valid() && argc <= argv.Length && forall i | 0 <= i < argc :: argv[i] in heap.blocks
      modifies `nextPipe, `nextPid, `children, `unreaped, proc
      ensures Valid()
      ensures Launched(K(), pipefd, pid) ==
              LaunchOne(old(K()), Stage(Strings(heap.blocks, argv[..argc]), r), r.dst, makepipe, background)
      ensures Adds(old(unreaped), old(nextPid), nextPid, unreaped)
    {
      var srcfd := r.src;
      pipefd := -1;
      if makepipe {
        srcfd, pipefd := proc.Pipe(nextPipe);
        nextPipe := nextPipe + 1;
      }
      assert (K(), srcfd, pipefd) == PipeMade(old(K()), makepipe, r.src);
      pid := Invoke(argc, argv, r.(src := srcfd), background, pipefd);
    }

    /** The end of `command`: the stage is started and its arguments are freed. */
    method Finish(f: Frame, dst: int, makepipe: bool, background: bool,
                  ghost stage: Stage, ghost base: map<int, string>, ghost p: int)
      returns (pid: int, pipefd: int)
      requires Valid() && f.Valid()
      requires f.argc == |stage.args| && f.Consecutive(p) && f.Redirection() == stage.redirection
      requires heap.blocks == Extended(base, p, stage.args) && forall q | q in base :: q < p
      modifies this, proc, heap
      ensures Valid() && heap.blocks == base && heap.next == old(heap.next)
      ensures Adds(old(heap.freed), p, p + |stage.args|, heap.freed)
      ensures Launched(K(), pipefd, pid) == LaunchOne(old(K()), stage, dst, makepipe, background)
      ensures Adds(old(unreaped), old(nextPid), nextPid, unreaped) && old(nextPid) <= nextPid
      ensures displayed == old(displayed)
    {
      StringsAre(base, p, stage.args, f.argv[..f.argc]);
      forall i | 0 <= i < f.argc ensures f.argv[i] in heap.blocks {
        assert f.argv[i] == f.argv[..f.argc][i];
      }
      pid, pipefd := Start(f.argc, f.argv, f.Redirection().(dst := dst), makepipe, background);
      heap.FreeArgs(f.argc, f.argv, base, p, stage.args);
    }

    /** `command`: reads a line and starts its stages, from the last to the first.  A result of
        EndOfFile stands for the exit of the whole process.

        A line read to its end leaves the kernel as launching its stages does, every argument
        freed exactly once, and the unread input at the character after the line; otherwise
        all input is read and nothing but memory has changed. */
    method Command(makepipe: bool) returns (term: Token, wpid: int, pipefd: int)
      requires Valid()
      modifies this, stdin, proc, heap
      ensures Valid() && displayed == old(displayed)
      ensures Adds(old(unreaped), old(nextPid), nextPid, unreaped) && old(nextPid) <= nextPid
      ensures var p := ParseFrom(old(stdin.unread), stdin.broken, makepipe);
        match p
        case Stopped(token) =>
          && (term, stdin.unread, K(), heap.freed) == (token, [], old(K()), old(heap.freed))
          && forall b | b in old(heap.blocks) :: b in heap.blocks && heap.blocks[b] == old(heap.blocks)[b]
        case Line(stages, last, rest) =>
          && (term, stdin.unread, heap.blocks) == (last, rest, old(heap.blocks))
          && Launched(K(), pipefd, wpid) == Launch(old(K()), stages, makepipe, term == Amp)
          && Adds(old(heap.freed), old(heap.next), heap.next, heap.freed)
      ensures old(heap.next) <= heap.next
      decreases |stdin.unread|, 0
    {
      wpid, pipefd := 0, -1;
      var f := new Frame();
      ghost var r := ReadStage(stdin.unread, stdin.broken, makepipe, EMPTY_STAGE);
      ghost var base, p := heap.blocks, heap.next;
      ghost var goal := ParseFrom(stdin.unread, stdin.broken, makepipe);
      var token := f.Read(stdin, heap, makepipe);
      if token == EndOfFile || token == Error {
        ExtendedHolds(base, p, r.stage.args);
        return token, 0, -1;
      }
      term, wpid, pipefd := Complete(f, token, makepipe, r.stage, base, p);
    }

    /** The part of `command` after its loop, for a stage that `token` ended. */
    method Complete(f: Frame, token: Token, makepipe: bool,
                    ghost stage: Stage, ghost base: map<int, string>, ghost p: int)
      returns (term: Token, wpid: int, pipefd: int)
      requires Valid() && f.Valid() && token in {Bar, Amp, Semi, Newline}
      requires f.Holds(heap, stage, base, p, false) && forall q | q in base :: q < p
      requires {f, f.argv, f.srcfile, f.dstfile} !! {this, stdin, proc, heap}
      modifies this, stdin, proc, heap
      ensures Valid() && displayed == old(displayed)
      ensures Adds(old(unreaped), old(nextPid), nextPid, unreaped) && old(nextPid) <= nextPid
      ensures match ParseAfter(token, old(stdin.unread), stdin.broken)
        case Stopped(stop) =>
          && (term, stdin.unread, K(), heap.freed) == (stop, [], old(K()), old(heap.freed))
          && forall b | b in base :: b in heap.blocks && heap.blocks[b] == base[b]
        case Line(stages, last, rest) =>
          && (term, stdin.unread, heap.blocks) == (last, rest, base)
          && Launched(K(), pipefd, wpid) == Launch(old(K()), [stage] + stages, makepipe, term == Amp)
          && Adds(old(heap.freed), p, heap.next, heap.freed)
      ensures old(heap.next) <= heap.next
      decreases |stdin.unread|, 2
    {
      if token == Bar {
        term, wpid, pipefd := CompletePipe(f, makepipe, stage, base, p);
      } else {
        term := token;
        wpid, pipefd := CompleteLast(f, token, makepipe, stage, base, p);
      }
    }

    /** The last stage of a line is started with its own output. */
    method CompleteLast(f: Frame, term: Token, makepipe: bool,
                        ghost stage: Stage, ghost base: map<int, string>, ghost p: int)
      returns (wpid: int, pipefd: int)
      requires Valid() && f.Valid()
      requires f.Holds(heap, stage, base, p, false) && forall q | q in base :: q < p
      modifies this, proc, heap
      ensures Valid() && displayed == old(displayed)
      ensures Adds(old(unreaped), old(nextPid), nextPid, unreaped) && old(nextPid) <= nextPid
      ensures heap.blocks == base && heap.next == old(heap.next) && Adds(old(heap.freed), p, heap.next, heap.freed)
      ensures Launched(K(), pipefd, wpid) == Launch(old(K()), [stage] + [], makepipe, term == Amp)
    {
      LaunchCons(old(K()), stage, [], makepipe, term == Amp);
      wpid, pipefd := Finish(f, f.dstfd, makepipe, term == Amp, stage, base, p);
    }

    /** For `|` the rest of the pipeline is read and started first, and the stage's output goes
        there. */
    method CompletePipe(f: Frame, makepipe: bool, ghost stage: Stage, ghost base: map<int, string>, ghost p: int)
      returns (term: Token, wpid: int, pipefd: int)
      requires Valid() && f.Valid()
      requires f.Holds(heap, stage, base, p, false) && forall q | q in base :: q < p
      requires {f, f.argv, f.srcfile, f.dstfile} !! {this, stdin, proc, heap}
      modifies this, stdin, proc, heap
      ensures Valid() && displayed == old(displayed)
      ensures Adds(old(unreaped), old(nextPid), nextPid, unreaped) && old(nextPid) <= nextPid
      ensures match ParseFrom(old(stdin.unread), stdin.broken, true)
        case Stopped(stop) =>
          && (term, stdin.unread, K(), heap.freed) == (stop, [], old(K()), old(heap.freed))
          && forall b | b in base :: b in heap.blocks && heap.blocks[b] == base[b]
        case Line(stages, last, rest) =>
          && (term, stdin.unread, heap.blocks) == (last, rest, base)
          && Launched(K(), pipefd, wpid) == Launch(old(K()), [stage] + stages, makepipe, term == Amp)
          && Adds(old(heap.freed), p, heap.next, heap.freed)
      ensures old(heap.next) <= heap.next
      decreases |stdin.unread|, 1
    {
      ghost var after := ParseFrom(stdin.unread, stdin.broken, true);
      var dst;
      term, wpid, dst := Command(true);
      if term == Error || term == EndOfFile {
        ExtendedHolds(base, p, stage.args);
        return term, wpid, -1;
      }
      LaunchCons(old(K()), stage, after.stages, makepipe, term == Amp);
      var pid;
      pid, pipefd := Finish(f, dst, makepipe, term == Amp, stage, base, p);
    }

    /** `wait_and_display`: children are reaped in whatever order they end, each shown once,
        until it is `pid`'s turn. */
    method WaitAndDisplay(pid: int)
      requires Valid() && pid in unreaped
      modifies `unreaped, `displayed
      ensures Valid() && unreaped < old(unreaped) && pid !in unreaped
      ensures old(displayed) < displayed && displayed[|displayed| - 1] == pid
      ensures multiset(displayed[|old(displayed)|..]) == multiset(old(unreaped) - unreaped)
    {
      while true
        invariant Valid() && pid in unreaped && unreaped <= old(unreaped) && old(displayed) <= displayed
        invariant multiset(displayed[|old(displayed)|..]) == multiset(old(unreaped) - unreaped)
        decreases |unreaped|
      {
        ghost var reaped, shown := old(unreaped) - unreaped, displayed[|old(displayed)|..];
        var wpid :| wpid in unreaped;
        unreaped := unreaped - {wpid};
        displayed := displayed + [wpid];
        assert old(unreaped) - unreaped == reaped + {wpid};
        assert displayed[|old(displayed)|..] == shown + [wpid];
        if wpid == pid {
          return;
        }
      }
    }

    /** The end of a turn of the main loop: the shell waits for the line's process, if there is one,
        and then checks its descriptors. */
    method WaitAndCheck(term: Token, pid: int) returns (ok: bool)
      requires Valid() && (pid > 0 ==> pid in unreaped)
      modifies `unreaped, `displayed
      ensures Valid() && ok == Tidy(proc.fds)
      ensures unreaped <= old(unreaped) && old(displayed) <= displayed
      ensures term != Amp && pid > 0 ==>
                pid !in unreaped && old(displayed) < displayed && displayed[|displayed| - 1] == pid
      ensures term == Amp || pid <= 0 ==> displayed == old(displayed) && unreaped == old(unreaped)
    {
      if term != Amp && pid > 0 {
        WaitAndDisplay(pid);
      }
      ok := proc.FdCheck();
    }

    /** One turn of the main loop of `start_shell`, which may be the last. */
    method Turn() returns (ending: Option<Ending>)
      requires Valid()
      modifies this, stdin, proc, heap
      ensures Valid()
      ensures match ParseLine(old(stdin.unread), stdin.broken)
        case Stopped(token) =>
          && ending == Some(if token == Error then BadCommand else Exited) && K() == old(K())
          && TurnWaits([], old(displayed), old(unreaped), old(nextPid), displayed, unreaped, nextPid)
          && forall b | b in old(heap.blocks) :: b in heap.blocks && heap.blocks[b] == old(heap.blocks)[b]
        case Line(stages, term, rest) =>
          var l := Launch(old(K()), stages, false, term == Amp);
          && K() == l.k && stdin.unread == rest && heap.blocks == old(heap.blocks)
          && ending == (if Tidy(l.k.fds) then None else Some(DescriptorsOpen))
          && TurnWaits(AwaitedOf(l, term), old(displayed), old(unreaped), old(nextPid), displayed, unreaped, nextPid)
          && (term == Amp ==> displayed == old(displayed)
                              && forall pid | old(nextPid) <= pid < nextPid :: pid in unreaped)
    {
      ghost var line := ParseLine(stdin.unread, stdin.broken);
      var term, pid, _ := Command(false);
      if term == EndOfFile || term == Error {
        return Some(if term == EndOfFile then Exited else BadCommand);
      }
      WaitsForLast(old(K()), line.stages, false, term == Amp);
      var ok := WaitAndCheck(term, pid);
      return if ok then None else Some(DescriptorsOpen);
    }

    /** `start_shell`.  Besides the session's state: every process the shell had to wait for was
        shown and is reaped, the last one shown is the last it had to wait for, and if there was
        none, nothing was shown or reaped; and the memory from before is as it was, with nothing
        added to it unless the input ended inside a line. */
    method StartShell() returns (ending: Ending)
      requires Valid()
      modifies this, stdin, proc, heap
      ensures Valid()
      ensures (K(), ending) == Session(old(K()), old(stdin.unread), stdin.broken)
      ensures var lines := LinesOf(old(stdin.unread), stdin.broken);
        && LinesShaped(lines)
        && var awaited := Awaited(old(K()), lines);
           Waited(awaited, old(displayed), old(unreaped), old(nextPid), displayed, unreaped, nextPid)
           && ((forall i | 0 <= i < |lines| :: lines[i].term == Amp) ==> displayed == old(displayed))
      ensures forall b | b in old(heap.blocks) :: b in heap.blocks && heap.blocks[b] == old(heap.blocks)[b]
      ensures ending == DescriptorsOpen ==> heap.blocks == old(heap.blocks)
    {
      LinesAreShaped(stdin.unread, stdin.broken);
      ghost var lines := LinesOf(stdin.unread, stdin.broken);
      if forall i | 0 <= i < |lines| :: lines[i].term == Amp {
        NoneAwaited(K(), lines);
      }
      ghost var goal, all := Session(K(), stdin.unread, stdin.broken), Awaited(K(), lines);
      ghost var done, left, shown, waiting, first := [], lines, displayed, unreaped, nextPid;
      while true
        invariant Valid() && heap.blocks == old(heap.blocks)
        invariant Goes(goal, all, done, left, shown, waiting, first)
        decreases |stdin.unread|
      {
        var stop;
        stop, done, left := NextTurn(goal, all, done, left, shown, waiting, first);
        if stop.Some? {
          return stop.value;
        }
      }
    }

    /** The session goes on to `goal` and to wait for `all`; so far it has waited for `done`, and
        `left` are the lines it has not read. */
    ghost predicate Goes(goal: (Kernel, Ending), all: seq<int>, done: seq<int>, left: seq<CommandRead>,
                         shown: seq<int>, waiting: set<int>, first: int)
      reads this, stdin, proc
    {
      && first <= nextPid && LinesShaped(left) && left == LinesOf(stdin.unread, stdin.broken)
      && Session(K(), stdin.unread, stdin.broken) == goal && all == done + Awaited(K(), left)
      && Waited(done, shown, waiting, first, displayed, unreaped, nextPid)
    }

    /** A turn of the loop, seen from the whole session. */
    method NextTurn(ghost goal: (Kernel, Ending), ghost all: seq<int>, ghost done: seq<int>,
                    ghost left: seq<CommandRead>, ghost shown: seq<int>, ghost waiting: set<int>, ghost first: int)
      returns (stop: Option<Ending>, ghost done1: seq<int>, ghost left1: seq<CommandRead>)
      requires Valid() && Goes(goal, all, done, left, shown, waiting, first)
      modifies this, stdin, proc, heap
      ensures Valid()
      ensures forall b | b in old(heap.blocks) :: b in heap.blocks && heap.blocks[b] == old(heap.blocks)[b]
      ensures stop.None? ==>
                && Goes(goal, all, done1, left1, shown, waiting, first)
                && heap.blocks == old(heap.blocks) && |stdin.unread| < |old(stdin.unread)|
      ensures stop.Some? ==>
                && (K(), stop.value) == goal && Waited(all, shown, waiting, first, displayed, unreaped, nextPid)
                && (stop.value == DescriptorsOpen ==> heap.blocks == old(heap.blocks))
    {
      LinesNext(stdin.unread, stdin.broken);
      ghost var more := LineAwaited(K(), left);
      WaitedMore(done, more, shown, waiting, first, displayed, unreaped, nextPid);
      AwaitedNext(K(), left, done);
      done1, left1 := done + more, if left == [] then [] else left[1..];
      stop := Turn();
    }
  }

  /** What the shell waits for after the first of some lines. */
  function LineAwaited(k: Kernel, lines: seq<CommandRead>): seq<int>
    requires lines != [] ==> lines[0].stages != []
  {
    if lines == [] then [] else AwaitedOf(Launch(k, lines[0].stages, false, lines[0].term == Amp), lines[0].term)
  }

  lemma AwaitedNext(k: Kernel, lines: seq<CommandRead>, done: seq<int>)
    requires forall i | 0 <= i < |lines| :: lines[i].stages != []
    ensures done + Awaited(k, lines) == (done + LineAwaited(k, lines)) +
      (if lines == [] then []
       else
         var l := Launch(k, lines[0].stages, false, lines[0].term == Amp);
         if Tidy(l.k.fds) then Awaited(l.k, lines[1..]) else [])
  {
  }

  predicate IsDone(pid: int, displayed: seq<int>, unreaped: set<int>, nextPid: int) {
    pid in displayed && pid !in unreaped && pid < nextPid
  }

  /** So far the shell had to wait for `done`: from `shown`, `waiting` and `first` it has come to
      `displayed`, `unreaped` and `nextPid`. */
  ghost predicate Waited(done: seq<int>, shown: seq<int>, waiting: set<int>, first: int,
                         displayed: seq<int>, unreaped: set<int>, nextPid: int) {
    && (forall pid | pid in done :: IsDone(pid, displayed, unreaped, nextPid))
    && (done == [] ==> displayed == shown && Adds(waiting, first, nextPid, unreaped))
    && (done != [] ==> displayed != [] && displayed[|displayed| - 1] == done[|done| - 1])
  }

  /** What a turn of the loop does to them. */
  ghost predicate TurnWaits(more: seq<int>, displayed: seq<int>, unreaped: set<int>, nextPid: int,
                            displayed1: seq<int>, unreaped1: set<int>, nextPid1: int) {
    && displayed <= displayed1 && nextPid <= nextPid1
    && (forall pid | pid < nextPid && pid !in unreaped :: pid !in unreaped1)
    && (more == [] ==> displayed1 == displayed && Adds(unreaped, nextPid, nextPid1, unreaped1))
    && (more != [] ==> |more| == 1 && IsDone(more[0], displayed1, unreaped1, nextPid1)
                       && displayed1[|displayed1| - 1] == more[0])
  }

  lemma WaitedMore(done: seq<int>, more: seq<int>, shown: seq<int>, waiting: set<int>, first: int,
                   displayed: seq<int>, unreaped: set<int>, nextPid: int)
    requires Waited(done, shown, waiting, first, displayed, unreaped, nextPid) && first <= nextPid
    ensures forall displayed1, unreaped1, nextPid1 |
              TurnWaits(more, displayed, unreaped, nextPid, displayed1, unreaped1, nextPid1) ::
              Waited(done + more, shown, waiting, first, displayed1, unreaped1, nextPid1)
  {
  }
}
