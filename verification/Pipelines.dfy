/** What the wiring means: which process holds which end of which pipe, and what happens to
    the shell and to the other stages when a stage of a pipeline is not a process. */
module Pipelines {
  import opened Descriptors
  import opened Launching
  import opened Wiring

  /** Pipe numbers not made yet are held by nobody. */
  ghost predicate PipesAreFresh(k: Kernel) {
    && NoPipeFrom(k.fds, k.nextPipe)
    && forall c | c in k.children :: NoPipeFrom(c.fds, k.nextPipe)
  }

  ghost predicate NoPipeFrom(fds: Table, next: nat) {
    forall fd | fd in fds :: OlderPipe(fds[fd], next)
  }

  predicate OlderPipe(d: Description, next: nat) {
    (d.PipeRead? || d.PipeWrite?) ==> d.pipe < next
  }

  /** Where the child of stage `i` of `n` is among the children started since `k`. */
  function ChildIndex(k: Kernel, n: nat, i: nat): nat
    requires i < n
  {
    |k.children| + (n - 1 - i)
  }

  /** Child `w` alone can write to pipe `p`, as its output; child `r` alone can read from it, as its
      input; the shell can do neither. */
  ghost predicate Connects(p: nat, k: Kernel, w: nat, r: nat) {
    && r < w < |k.children|
    && STDOUT in k.children[w].fds && STDIN in k.children[r].fds
    && (forall c, fd | 0 <= c < |k.children| && fd in k.children[c].fds ::
          && (k.children[c].fds[fd] == PipeWrite(p) <==> c == w && fd == STDOUT)
          && (k.children[c].fds[fd] == PipeRead(p) <==> c == r && fd == STDIN))
    && (forall fd | fd in k.fds :: k.fds[fd] != PipeWrite(p) && k.fds[fd] != PipeRead(p))
  }

  /** The pipe into stage `i` connects the stage before with it. */
  ghost predicate OneWriterOneReader(k: Kernel, n: nat, i: nat, after: Kernel)
    requires 0 < i < n
  {
    Connects(PipeInto(k, n, i), after, ChildIndex(k, n, i - 1), ChildIndex(k, n, i))
  }

  /** End-of-file can travel down every pipeline of external commands: its n - 1 pipes are
      distinct and new, and each has one process that writes and one that reads. */
  lemma PipesConnectNeighbours(k: Kernel, stages: seq<Stage>, background: bool)
    requires Clean(k.fds) && PipesAreFresh(k)
    requires stages != [] && WellShaped(stages, false) && AllExternal(stages)
    ensures var n, after := |stages|, Launch(k, stages, false, background).k;
            && after.fds == k.fds
            && after.nextPipe == k.nextPipe + (n - 1)
            && PipesAreFresh(after)
            && (forall i | 0 < i < n :: k.nextPipe <= PipeInto(k, n, i) < after.nextPipe)
            && (forall i, j | 0 < i < j < n :: PipeInto(k, n, i) != PipeInto(k, n, j))
            && (forall i | 0 < i < n :: OneWriterOneReader(k, n, i, after))
  {
    LaunchWires(k, stages, false, background);
    var n, after := |stages|, Launch(k, stages, false, background).k;
    forall i | 0 < i < n ensures OneWriterOneReader(k, n, i, after) {
      Neighbours(k, stages, background, after, i);
    }
    forall c | c in after.children ensures NoPipeFrom(c.fds, after.nextPipe) {
      var j :| 0 <= j < |after.children| && after.children[j] == c;
      StaysFresh(k, stages, background, after.children, j);
    }
  }

  lemma StaysFresh(k: Kernel, stages: seq<Stage>, background: bool, children: seq<Child>, j: nat)
    requires Clean(k.fds) && PipesAreFresh(k) && stages != []
    requires ChildrenAfter(k, stages, false, background, children) && j < |children|
    ensures NoPipeFrom(children[j].fds, k.nextPipe + (|stages| - 1))
  {
    if j < |k.children| {
      assert children[j] == k.children[j] && k.children[j] in k.children;
      assert NoPipeFrom(children[j].fds, k.nextPipe);
    } else {
      var i := |children| - 1 - j;
      assert children[|k.children| + (|stages| - 1 - i)] == WiredChild(k, stages, false, background, i);
      assert OlderPipe(k.fds[STDIN], k.nextPipe) && OlderPipe(k.fds[STDOUT], k.nextPipe);
      assert OlderPipe(k.fds[STDERR], k.nextPipe);
    }
  }

  lemma Neighbours(k: Kernel, stages: seq<Stage>, background: bool, after: Kernel, i: nat)
    requires Clean(k.fds) && PipesAreFresh(k) && 0 < i < |stages|
    requires ChildrenAfter(k, stages, false, background, after.children) && after.fds == k.fds
    ensures OneWriterOneReader(k, |stages|, i, after)
  {
    var n := |stages|;
    assert after.children[ChildIndex(k, n, i)] == WiredChild(k, stages, false, background, i);
    assert after.children[ChildIndex(k, n, i - 1)] == WiredChild(k, stages, false, background, i - 1);
    forall c, fd | 0 <= c < |after.children| && fd in after.children[c].fds
      ensures after.children[c].fds[fd] == PipeWrite(PipeInto(k, n, i)) <==>
              c == ChildIndex(k, n, i - 1) && fd == STDOUT
      ensures after.children[c].fds[fd] == PipeRead(PipeInto(k, n, i)) <==> c == ChildIndex(k, n, i) && fd == STDIN
    {
      HoldersAre(k, stages, background, after.children, i, c, fd);
    }
    forall fd | fd in after.fds
      ensures after.fds[fd] != PipeWrite(PipeInto(k, n, i)) && after.fds[fd] != PipeRead(PipeInto(k, n, i))
    {
      assert OlderPipe(k.fds[fd], k.nextPipe);
    }
  }

  lemma HoldersAre(k: Kernel, stages: seq<Stage>, background: bool, children: seq<Child>, i: nat, c: nat, fd: int)
    requires Clean(k.fds) && PipesAreFresh(k) && 0 < i < |stages|
    requires ChildrenAfter(k, stages, false, background, children)
    requires c < |children| && fd in children[c].fds
    ensures children[c].fds[fd] == PipeWrite(PipeInto(k, |stages|, i)) <==>
            c == ChildIndex(k, |stages|, i - 1) && fd == STDOUT
    ensures children[c].fds[fd] == PipeRead(PipeInto(k, |stages|, i)) <==>
            c == ChildIndex(k, |stages|, i) && fd == STDIN
  {
    if c < |k.children| {
      assert children[c] == k.children[c] && k.children[c] in k.children;
      assert OlderPipe(children[c].fds[fd], k.nextPipe);
    } else {
      var j := |children| - 1 - c;
      assert children[|k.children| + (|stages| - 1 - j)] == WiredChild(k, stages, false, background, j);
      assert OlderPipe(k.fds[STDIN], k.nextPipe) && OlderPipe(k.fds[STDOUT], k.nextPipe);
      assert OlderPipe(k.fds[STDERR], k.nextPipe);
    }
  }

  lemma AtMostThreeMore(open: set<int>)
    requires LowOnly(open)
    ensures |open - {STDIN, STDOUT, STDERR}| <= 3
  {
    var more := open - {STDIN, STDOUT, STDERR};
    forall fd | fd in more ensures fd in {3, 4, 5} {
      assert fd in open;
    }
    assert {3, 4, 5} == more + ({3, 4, 5} - more);
  }

  /** However long the pipeline: after every `pipe` and `close` in the shell it has at most three
      descriptors besides the standard three, and none that the scan of `fd_check` would miss. */
  lemma DescriptorsAreBounded(k: Kernel, stages: seq<Stage>, background: bool)
    requires Clean(k.fds) && stages != [] && WellShaped(stages, false) && AllExternal(stages)
    ensures var trail := Launch(k, stages, false, background).k.trail;
            && k.trail <= trail
            && forall i | |k.trail| <= i < |trail| ::
                 && |trail[i] - {STDIN, STDOUT, STDERR}| <= 3
                 && forall fd | fd in trail[i] :: STDIN <= fd <= STDERR || 3 <= fd < 20
  {
    LaunchWires(k, stages, false, background);
    var trail := Launch(k, stages, false, background).k.trail;
    forall i | |k.trail| <= i < |trail| ensures |trail[i] - {STDIN, STDOUT, STDERR}| <= 3 {
      AtMostThreeMore(trail[i]);
    }
  }

  const DEV_NULL := File("/dev/null", Read)

  predicate ReadsFrom(child: Child, d: Description) {
    STDIN in child.fds && child.fds[STDIN] == d
  }

  /** The terminator of the line decides for every stage.  In the background no child takes
      the default signals, the first reads /dev/null, if that can be opened and it has no input
      file, and every later one still reads its pipe; in the foreground every child takes the
      default signals and the first, without a file, reads the shell's input. */
  lemma BackgroundReachesAll(k: Kernel, stages: seq<Stage>, background: bool)
    requires Clean(k.fds) && stages != [] && WellShaped(stages, false) && AllExternal(stages)
    ensures var children := Launch(k, stages, false, background).k.children;
            && |children| == |k.children| + |stages|
            && (forall i | 0 <= i < |stages| :: children[ChildIndex(k, |stages|, i)].defaultSignals == !background)
            && (forall i | 0 < i < |stages| ::
                  ReadsFrom(children[ChildIndex(k, |stages|, i)], PipeRead(PipeInto(k, |stages|, i))))
            && (stages[0].redirection.src == STDIN ==>
                  ReadsFrom(children[ChildIndex(k, |stages|, 0)],
                            if background && DEV_NULL !in k.blocked then DEV_NULL else k.fds[STDIN]))
  {
    LaunchWires(k, stages, false, background);
    var children := Launch(k, stages, false, background).k.children;
    forall i | 0 <= i < |stages|
      ensures children[ChildIndex(k, |stages|, i)] == WiredChild(k, stages, false, background, i)
    {
    }
    assert WellShapedStage(stages[0].redirection, false, 0 < |stages| - 1);
  }

  /** A file that is opened, or, if it cannot be or has no name, what is there already. */
  function OpenedOr(name: string, mode: Mode, blocked: set<Description>, otherwise: Description): Description {
    if name != "" && File(name, mode) !in blocked then File(name, mode) else otherwise
  }

  /** The files of a pipeline: its first stage reads its input file, or, without one and in the
      background, /dev/null; its last stage writes its output file, after what is in the file if it
      is to append, and in place of it if not.  Standard error is the shell's. */
  lemma FilesOfPipeline(k: Kernel, stages: seq<Stage>, background: bool)
    requires Clean(k.fds) && stages != [] && WellShaped(stages, false) && AllExternal(stages)
    ensures var children := Launch(k, stages, false, background).k.children;
      && |children| == |k.children| + |stages|
      && var first, last := children[|children| - 1].fds, children[|k.children|].fds;
         var r, w := stages[0].redirection, stages[|stages| - 1].redirection;
         && Clean(first) && Clean(last) && first[2] == last[2] == k.fds[2]
         && first[0] == OpenedOr(if r.src == 0 && background then "/dev/null" else r.srcfile, Read, k.blocked, k.fds[0])
         && last[1] == OpenedOr(w.dstfile, if w.append then Append else Truncate, k.blocked, k.fds[1])
  {
    LaunchWires(k, stages, false, background);
    var n, children := |stages|, Launch(k, stages, false, background).k.children;
    assert children[|k.children| + (n - 1 - 0)] == WiredChild(k, stages, false, background, 0);
    assert children[|k.children| + (n - 1 - (n - 1))] == WiredChild(k, stages, false, background, n - 1);
  }

  // ---------- Stages that are not processes ----------

  /** How many of the stages become processes. */
  function Externals(stages: seq<Stage>): nat {
    if stages == [] then 0 else (if External(stages[0].args) then 1 else 0) + Externals(stages[1..])
  }

  /** A descriptor from 3 on that the caller is not handed. */
  ghost predicate Leaks(l: Launched) {
    exists fd {:trigger fd in l.k.fds} :: 3 <= fd < 20 && fd in l.k.fds && fd != l.pipefd
  }

  /** The three standard descriptors are open, and none is negative. */
  ghost predicate Usable(fds: Table) {
    STDIN in fds && STDOUT in fds && STDERR in fds && forall fd | fd in fds :: 0 <= fd
  }

  lemma RedirectKeeps(fds: Table, r: Redirection, fd: int, background: bool, blocked: set<Description>)
    requires Usable(fds) && fd in fds && STDERR < fd && fd != r.src && fd != r.dst
    requires Given(fds, r.src, STDIN, r.srcfile) && Given(fds, r.dst, STDOUT, r.dstfile)
    requires r.src > STDERR ==> r.src != r.dst
    ensures fd in Redirected(fds, r, background, blocked)
  {
    InputRedirectedIs(fds, r, background, blocked);
    OutputRedirectedIs(InputRedirected(fds, r, background, blocked), r, blocked);
  }

  /** What a launch leaves for the stage before it, whatever its stages are. */
  ghost predicate Handed(k: Kernel, stages: seq<Stage>, makepipe: bool, l: Launched)
    requires STDIN in k.fds && STDOUT in k.fds
  {
    && Usable(l.k.fds)
    && (makepipe ==> STDERR < l.pipefd && l.pipefd in l.k.fds)
    && (!makepipe ==> l.pipefd == -1)
    && (AllExternal(stages) ==> stages != [] && ShellAfter(k, |stages|, makepipe, l))
    && (!AllExternal(stages) && (makepipe || 1 < |stages|) ==> Leaks(l))
    && (!AllExternal(stages) && !makepipe && |stages| == 1 ==> l.k.fds == k.fds)
  }

  lemma ExternalSplit(stages: seq<Stage>)
    requires stages != []
    ensures AllExternal(stages) <==> External(stages[0].args) && AllExternal(stages[1..])
  {
    if External(stages[0].args) && AllExternal(stages[1..]) {
      forall i | 0 <= i < |stages| ensures External(stages[i].args) {
        assert i > 0 ==> stages[i] == stages[1..][i - 1];
      }
    }
  }

  /** A stage launched where a descriptor has leaked: the leak stays, and the stage's process,
      if it becomes one, inherits it and ends before its `execvp`. */
  lemma LeakStays(rest: Launched, stage: Stage, makepipe: bool, background: bool)
    requires Usable(rest.k.fds) && STDERR < rest.pipefd && rest.pipefd in rest.k.fds && Leaks(rest)
    requires WellShapedStage(stage.redirection, makepipe, true)
    ensures var l := LaunchOne(rest.k, stage, rest.pipefd, makepipe, background);
            && Usable(l.k.fds) && Leaks(l)
            && (makepipe ==> STDERR < l.pipefd && l.pipefd in l.k.fds)
            && (!makepipe ==> l.pipefd == -1)
            && (External(stage.args) ==>
                |l.k.children| == |rest.k.children| + 1 && !l.k.children[|rest.k.children|].execs)
  {
    var fd :| 3 <= fd < 20 && fd in rest.k.fds && fd != rest.pipefd;
    var (k1, src, w) := PipeMade(rest.k, makepipe, stage.redirection.src);
    PipeKeeps(rest.k, makepipe, stage.redirection.src, fd);
    PipeKeeps(rest.k, makepipe, stage.redirection.src, rest.pipefd);
    InvokedKeeps(k1, Stage(stage.args, stage.redirection.(src := src, dst := rest.pipefd)), background, w, fd);
  }

  /** Making a pipe leaves what is open alone. */
  lemma PipeKeeps(k: Kernel, makepipe: bool, src: int, fd: int)
    requires Usable(k.fds) && fd in k.fds
    ensures var (k1, src1, w) := PipeMade(k, makepipe, src);
            && Usable(k1.fds) && fd in k1.fds && fd != w && k1.children == k.children
            && (makepipe ==> STDERR < src1 && STDERR < w && src1 in k1.fds && w in k1.fds && src1 != w && fd != src1)
            && (!makepipe ==> w == -1 && src1 == src)
  {
  }

  /** A stage's process inherits what it was not given, and the shell keeps it. */
  lemma InvokedKeeps(k: Kernel, stage: Stage, background: bool, w: int, fd: int)
    requires Usable(k.fds) && 3 <= fd < 20 && fd in k.fds && fd !in {stage.redirection.src, stage.redirection.dst, w}
    requires w == -1 || (STDERR < w && w in k.fds && w !in {stage.redirection.src, stage.redirection.dst})
    requires stage.redirection.src > STDERR ==> stage.redirection.src != stage.redirection.dst
    requires Given(k.fds, stage.redirection.src, STDIN, stage.redirection.srcfile)
    requires Given(k.fds, stage.redirection.dst, STDOUT, stage.redirection.dstfile)
    ensures var k1 := Invoked(k, stage, background, w).0;
            && Usable(k1.fds) && fd in k1.fds && (w != -1 ==> w in k1.fds)
            && (External(stage.args) ==>
                |k1.children| == |k.children| + 1 && !k1.children[|k.children|].execs)
  {
    if External(stage.args) {
      RedirectKeeps(if w != -1 then Closed(k.fds, w) else k.fds, stage.redirection, fd, background, k.blocked);
    }
  }

  /** A stage that is no process leaves behind the pipe ends it was given. */
  lemma EarlyReturnLeaks(k: Kernel, stages: seq<Stage>, makepipe: bool, background: bool, rest: Launched)
    requires Clean(k.fds) && stages != [] && WellShaped(stages, makepipe) && !External(stages[0].args)
    requires |stages| == 1 ==> rest == Launched(k, stages[0].redirection.dst, 0)
    requires |stages| > 1 ==> ShellAfter(k, |stages| - 1, true, rest)
    ensures Handed(k, stages, makepipe, LaunchOne(rest.k, stages[0], rest.pipefd, makepipe, background))
  {
    PipeMadeIs(k, stages, makepipe, rest);
    assert WellShapedStage(stages[0].redirection, makepipe, |stages| > 1);
    var fds := PipeMade(rest.k, makepipe, stages[0].redirection.src).0.fds;
    assert makepipe ==> 3 in fds;
    assert |stages| > 1 ==> WriteFd(|stages| - 1) in fds;
  }

  lemma HandedStep(k: Kernel, stages: seq<Stage>, makepipe: bool, background: bool, rest: Launched)
    requires Clean(k.fds) && |stages| > 1 && WellShaped(stages, makepipe) && !AllExternal(stages)
    requires Handed(k, stages[1..], true, rest)
    ensures Handed(k, stages, makepipe, LaunchOne(rest.k, stages[0], rest.pipefd, makepipe, background))
  {
    ExternalSplit(stages);
    if AllExternal(stages[1..]) {
      EarlyReturnLeaks(k, stages, makepipe, background, rest);
    } else {
      WellShapedTail(stages, makepipe);
      LeakStays(rest, stages[0], makepipe, background);
    }
  }

  lemma {:induction false} LaunchHands(k: Kernel, stages: seq<Stage>, makepipe: bool, background: bool)
    requires Clean(k.fds) && stages != [] && WellShaped(stages, makepipe)
    ensures Handed(k, stages, makepipe, Launch(k, stages, makepipe, background))
    decreases |stages|
  {
    if AllExternal(stages) {
      LaunchWires(k, stages, makepipe, background);
    } else if |stages| == 1 {
      ExternalSplit(stages);
      EarlyReturnLeaks(k, stages, makepipe, background, Launched(k, stages[0].redirection.dst, 0));
    } else {
      WellShapedTail(stages, makepipe);
      LaunchHands(k, stages[1..], true, background);
      HandedStep(k, stages, makepipe, background, Launch(k, stages[1..], true, background));
    }
  }

  /** The shell passes its own `fd_check` after a line exactly when the line has one stage or
      only stages that become processes; it then holds exactly what it held before. */
  lemma ShellTidyIff(k: Kernel, stages: seq<Stage>, background: bool)
    requires Clean(k.fds) && stages != [] && WellShaped(stages, false)
    ensures var fds := Launch(k, stages, false, background).k.fds;
            && (Tidy(fds) <==> |stages| == 1 || AllExternal(stages))
            && (Tidy(fds) ==> fds == k.fds)
  {
    LaunchHands(k, stages, false, background);
  }

  /** Stage `i`'s child is where the number of processes to its right says, and it execs
      exactly if every stage to its right is a process too. */
  ghost predicate Runs(k: Kernel, stages: seq<Stage>, children: seq<Child>, i: nat)
    requires i < |stages|
  {
    var c := |k.children| + Externals(stages[i + 1..]);
    && c < |children|
    && children[c].args == stages[i].args
    && (children[c].execs <==> AllExternal(stages[i + 1..]))
  }

  ghost predicate AllRun(k: Kernel, stages: seq<Stage>, children: seq<Child>) {
    && |children| == |k.children| + Externals(stages)
    && k.children <= children
    && forall i | 0 <= i < |stages| && External(stages[i].args) :: Runs(k, stages, children, i)
  }

  /** The stages that run: a stage that becomes a process gets as far as its program exactly
      when every stage to its right becomes a process too.  Children are in order of starting. */
  lemma {:induction false} StagesThatRun(k: Kernel, stages: seq<Stage>, makepipe: bool, background: bool)
    requires Clean(k.fds) && stages != [] && WellShaped(stages, makepipe)
    ensures AllRun(k, stages, Launch(k, stages, makepipe, background).k.children)
    decreases |stages|
  {
    var rest := Launched(k, stages[0].redirection.dst, 0);
    if |stages| > 1 {
      WellShapedTail(stages, makepipe);
      StagesThatRun(k, stages[1..], true, background);
      LaunchHands(k, stages[1..], true, background);
      rest := Launch(k, stages[1..], true, background);
    }
    StageRuns(k, stages, makepipe, background, rest);
    var l := LaunchOne(rest.k, stages[0], rest.pipefd, makepipe, background);
    AllRunStep(k, stages, rest.k.children, l.k.children);
  }

  /** `children` is `before`, which is what the stages after the first started, with stage 0's
      child, if it has one. */
  ghost predicate AddsFirst(stages: seq<Stage>, before: seq<Child>, children: seq<Child>)
    requires stages != []
  {
    if External(stages[0].args) then
      && |children| == |before| + 1 && before <= children
      && children[|before|].args == stages[0].args
      && (children[|before|].execs <==> AllExternal(stages[1..]))
    else children == before
  }

  lemma AllRunStep(k: Kernel, stages: seq<Stage>, before: seq<Child>, children: seq<Child>)
    requires stages != [] && AllRun(k, stages[1..], before) && AddsFirst(stages, before, children)
    ensures AllRun(k, stages, children)
  {
    forall i | 0 <= i < |stages| && External(stages[i].args) ensures Runs(k, stages, children, i) {
      if i > 0 {
        assert stages[1..][i - 1] == stages[i] && stages[1..][i..] == stages[i + 1..];
        assert Runs(k, stages[1..], before, i - 1);
      }
    }
  }

  lemma StageRuns(k: Kernel, stages: seq<Stage>, makepipe: bool, background: bool, rest: Launched)
    requires Clean(k.fds) && stages != [] && WellShaped(stages, makepipe)
    requires |stages| == 1 ==> rest == Launched(k, stages[0].redirection.dst, 0)
    requires |stages| > 1 ==> Handed(k, stages[1..], true, rest)
    ensures AddsFirst(stages, rest.k.children,
                      LaunchOne(rest.k, stages[0], rest.pipefd, makepipe, background).k.children)
  {
    assert WellShapedStage(stages[0].redirection, makepipe, |stages| > 1);
    if External(stages[0].args) {
      if AllExternal(stages[1..]) {
        StageWires(k, stages, makepipe, background, rest);
      } else {
        LeakStays(rest, stages[0], makepipe, background);
      }
    }
  }
}
