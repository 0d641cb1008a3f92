/** Starting the stages of a parsed command line: the descriptors, pipes and processes of
    `invoke` and `command` in communication/shell.c, as a function of the parsed stages. */
module Launching {
  import opened Descriptors

  /** One stage of a pipeline as `command` has parsed it. */
  datatype Stage = Stage(args: seq<string>, redirection: Redirection)

  /** A forked child: its arguments, the descriptors it has when its redirection is done,
      whether it gets as far as `execvp` with them, and whether it takes the default
      interrupt and quit signals. */
  datatype Child = Child(pid: int, args: seq<string>, fds: Table, execs: bool, defaultSignals: bool)

  /** The shell's side of the operating system.  `trail` holds the sets of descriptors that
      were open in the shell after each `pipe` and `close`; files in `blocked` cannot be opened. */
  datatype Kernel = Kernel(
    fds: Table,
    trail: seq<set<int>>,
    nextPipe: nat,
    nextPid: int,
    children: seq<Child>,
    blocked: set<Description>)

  /** The commands the shell runs itself. */
  predicate Builtin(name: string) {
    '=' in name || name == "set" || name == "cd"
  }

  /** A stage that becomes a process. */
  predicate External(args: seq<string>) {
    args != [] && !Builtin(args[0])
  }

  predicate AllExternal(stages: seq<Stage>) {
    forall i | 0 <= i < |stages| :: External(stages[i].args)
  }

  function KernelClosed(k: Kernel, fd: int): Kernel {
    var fds := Closed(k.fds, fd);
    k.(fds := fds, trail := k.trail + [fds.Keys])
  }

  /** The child `fork` makes, up to its `execvp`. */
  function ForkedChild(k: Kernel, stage: Stage, background: bool, closefd: int): Child {
    var copied := if closefd != -1 then Closed(k.fds, closefd) else k.fds;
    var fds := Redirected(copied, stage.redirection, background, k.blocked);
    Child(k.nextPid, stage.args, fds, Tidy(fds), !background)
  }

  /** `invoke`: forks and redirects an external command, then closes the shell's copies of
      the pipe ends the child was given; anything else returns early. */
  function Invoked(k: Kernel, stage: Stage, background: bool, closefd: int): (Kernel, int) {
    if !External(stage.args) then (k, 0)
    else
      var child := ForkedChild(k, stage, background, closefd);
      var r := stage.redirection;
      var k1 := k.(nextPid := k.nextPid + 1, children := k.children + [child]);
      var k2 := if r.src > STDOUT then KernelClosed(k1, r.src) else k1;
      var k3 := if r.dst > STDOUT then KernelClosed(k2, r.dst) else k2;
      (k3, k.nextPid)
  }

  /** A launched command line: the kernel after it, the write end handed back to the caller
      (-1 if none was asked for), and the process to wait for (0 if none). */
  datatype Launched = Launched(k: Kernel, pipefd: int, wpid: int)

  /** The pipe a stage reads from, made if the caller asked for one: the kernel, the stage's
      input, and the write end (-1 without a pipe). */
  function PipeMade(k: Kernel, makepipe: bool, src: int): (Kernel, int, int) {
    if !makepipe then (k, src, -1)
    else
      var (fds, read, write) := Piped(k.fds, k.nextPipe);
      (k.(fds := fds, trail := k.trail + [fds.Keys], nextPipe := k.nextPipe + 1), read, write)
  }

  /** What `command` does once its line is parsed, from the last stage to the first. */
  function Launch(k: Kernel, stages: seq<Stage>, makepipe: bool, background: bool): Launched
    requires stages != []
    decreases |stages|, 0
  {
    var rest := LaunchAfter(k, stages[1..], stages[0].redirection.dst, background);
    var l := LaunchOne(rest.k, stages[0], rest.pipefd, makepipe, background);
    if |stages| == 1 then l else l.(wpid := rest.wpid)
  }

  /** The stages after one whose own output is `dst`. */
  function LaunchAfter(k: Kernel, stages: seq<Stage>, dst: int, background: bool): Launched
    decreases |stages|, 1
  {
    if stages == [] then Launched(k, dst, 0) else Launch(k, stages, true, background)
  }

  /** One stage, whose output goes to `dst`. */
  function LaunchOne(k: Kernel, stage: Stage, dst: int, makepipe: bool, background: bool): Launched {
    var (k1, src, w) := PipeMade(k, makepipe, stage.redirection.src);
    var given := Stage(stage.args, stage.redirection.(src := src, dst := dst));
    var (k2, pid) := Invoked(k1, given, background, w);
    Launched(k2, w, pid)
  }

  lemma LaunchCons(k: Kernel, stage: Stage, stages: seq<Stage>, makepipe: bool, background: bool)
    ensures var rest := LaunchAfter(k, stages, stage.redirection.dst, background);
            var l := LaunchOne(rest.k, stage, rest.pipefd, makepipe, background);
            Launch(k, [stage] + stages, makepipe, background) == if stages == [] then l else l.(wpid := rest.wpid)
  {
    assert ([stage] + stages)[1..] == stages;
  }

  // ---------- What the parser guarantees about stages ----------

  /** A file name only where the descriptor is not the standard one; input from a file only
      on the first stage of the line, output to a file only on the last. */
  predicate WellShaped(stages: seq<Stage>, makepipe: bool) {
    forall i | 0 <= i < |stages| :: WellShapedStage(stages[i].redirection, makepipe || 0 < i, i < |stages| - 1)
  }

  predicate WellShapedStage(r: Redirection, fromPipe: bool, toPipe: bool) {
    && (r.src == STDIN || (r.src == -1 && !fromPipe))
    && (r.dst == STDOUT || (r.dst == -1 && !toPipe))
    && (r.src == STDIN ==> r.srcfile == "")
    && (r.dst == STDOUT ==> r.dstfile == "")
  }

  lemma WellShapedTail(stages: seq<Stage>, makepipe: bool)
    requires stages != [] && WellShaped(stages, makepipe)
    ensures WellShaped(stages[1..], true)
    ensures WellShapedStage(stages[0].redirection, makepipe, |stages| > 1)
  {
    forall i | 0 <= i < |stages[1..]|
      ensures WellShapedStage(stages[1..][i].redirection, true, i < |stages[1..]| - 1)
    {
      assert WellShapedStage(stages[i + 1].redirection, true, i + 1 < |stages| - 1);
    }
  }
}
