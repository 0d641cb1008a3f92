/** Pipelines of external commands: what every child and the shell end up holding. */
module Wiring {
  import opened Descriptors
  import opened Launching

  // ---------- Redirection, in one step ----------

  /** The input of a stage that does not read from a pipe. */
  function InputSource(fds: Table, r: Redirection, background: bool, blocked: set<Description>): Description
    requires STDIN in fds
  {
    var file := File(if r.src == STDIN && background then "/dev/null" else r.srcfile, Read);
    if file.name != "" && file !in blocked then file else fds[STDIN]
  }

  /** The output of a stage that does not write to a pipe. */
  function OutputSink(fds: Table, r: Redirection, blocked: set<Description>): Description
    requires STDOUT in fds
  {
    var file := File(r.dstfile, if r.append then Append else Truncate);
    if file.name != "" && file !in blocked then file else fds[STDOUT]
  }

  /** A descriptor that `redirect` may be given: none, the standard one, or an open one above
      the standard three that no file name competes with. */
  predicate Given(fds: Table, fd: int, standard: int, file: string) {
    fd == -1 || (fd == standard && file == "") || (STDERR < fd && fd in fds && file == "")
  }

  lemma InputRedirectedIs(fds: Table, r: Redirection, background: bool, blocked: set<Description>)
    requires STDIN in fds && -1 !in fds && Given(fds, r.src, STDIN, r.srcfile)
    ensures InputRedirected(fds, r, background, blocked) ==
            if r.src > STDERR then Closed(fds[STDIN := fds[r.src]], r.src)
            else fds[STDIN := InputSource(fds, r, background, blocked)]
  {
  }

  lemma OutputRedirectedIs(fds: Table, r: Redirection, blocked: set<Description>)
    requires STDOUT in fds && -1 !in fds && Given(fds, r.dst, STDOUT, r.dstfile)
    ensures OutputRedirected(fds, r, blocked) ==
            if r.dst > STDERR then Closed(fds[STDOUT := fds[r.dst]], r.dst)
            else fds[STDOUT := OutputSink(fds, r, blocked)]
  {
  }

  // ---------- The closed form of a pipeline ----------

  /** The shell's descriptor for the write end that `n` launched stages hand back. */
  function WriteFd(n: nat): int {
    if n % 2 == 1 then 4 else 5
  }

  /** The pipe that feeds stage `i` of `n`. */
  function PipeInto(k: Kernel, n: nat, i: nat): nat
    requires i < n
  {
    k.nextPipe + (n - 1 - i)
  }

  /** Stage `i`'s process in a pipeline wired as the command line says. */
  function WiredChild(k: Kernel, stages: seq<Stage>, makepipe: bool, background: bool, i: nat): Child
    requires i < |stages| && STDIN in k.fds && STDOUT in k.fds
  {
    var n, r := |stages|, stages[i].redirection;
    var input :=
      if makepipe || 0 < i then PipeRead(PipeInto(k, n, i)) else InputSource(k.fds, r, background, k.blocked);
    var output :=
      if i + 1 < n then PipeWrite(PipeInto(k, n, i + 1)) else OutputSink(k.fds, r, k.blocked);
    Child(k.nextPid + (n - 1 - i), stages[i].args, k.fds[STDIN := input][STDOUT := output], true, !background)
  }

  /** The shell's own three descriptors are open and no others. */
  ghost predicate Clean(fds: Table) {
    forall fd :: fd in fds <==> STDIN <= fd <= STDERR
  }

  lemma LowestFreeIs(open: set<int>, fd: int)
    requires 0 <= fd && fd !in open && forall k :: 0 <= k < fd ==> k in open
    ensures LowestFree(open, 0) == fd
  {
  }

  /** A pipe made next to at most one other pipe end. */
  lemma PipedIs(base: Table, fds: Table, n: nat, pipe: nat)
    requires Clean(base)
    requires fds == base || (n > 0 && WriteFd(n) in fds && fds == base[WriteFd(n) := fds[WriteFd(n)]])
    requires fds == base ==> n == 0
    ensures Piped(fds, pipe) ==
            (fds[3 := PipeRead(pipe)][WriteFd(n + 1) := PipeWrite(pipe)], 3, WriteFd(n + 1))
  {
    LowestFreeIs(fds.Keys, 3);
    LowestFreeIs(fds.Keys + {3}, WriteFd(n + 1));
    assert fds[3 := PipeRead(pipe)].Keys == fds.Keys + {3};
  }

  /** A table with the pipe end that descriptor `fd` stands for, if it stands for one. */
  function With(fds: Table, fd: int, end: Description): Table {
    if fd > STDERR then fds[fd := end] else fds
  }

  /** Standard input after redirection, for a child given `r.src`. */
  function InputOf(base: Table, r: Redirection, input: Description,
                   background: bool, blocked: set<Description>): Description
    requires STDIN in base
  {
    if r.src > STDERR then input else InputSource(base, r, background, blocked)
  }

  lemma InputRedirectedNextTo(base: Table, r: Redirection, input: Description, output: Description,
                              background: bool, blocked: set<Description>)
    requires Clean(base) && (r.src == r.dst ==> r.src <= STDERR)
    requires Given(With(With(base, r.src, input), r.dst, output), r.src, STDIN, r.srcfile)
    ensures InputRedirected(With(With(base, r.src, input), r.dst, output), r, background, blocked) ==
            With(base[STDIN := InputOf(base, r, input, background, blocked)], r.dst, output)
  {
    InputRedirectedIs(With(With(base, r.src, input), r.dst, output), r, background, blocked);
  }

  /** A child that holds just the ends `r.src` and `r.dst` next to its three standard
      descriptors is left with those three. */
  lemma RedirectedIs(base: Table, r: Redirection, input: Description, output: Description,
                     background: bool, blocked: set<Description>)
    requires Clean(base) && (r.src == r.dst ==> r.src <= STDERR)
    requires var fds := With(With(base, r.src, input), r.dst, output);
             Given(fds, r.src, STDIN, r.srcfile) && Given(fds, r.dst, STDOUT, r.dstfile)
    ensures Redirected(With(With(base, r.src, input), r.dst, output), r, background, blocked) ==
            base[STDIN := InputOf(base, r, input, background, blocked)]
                [STDOUT := if r.dst > STDERR then output else OutputSink(base, r, blocked)]
  {
    InputRedirectedNextTo(base, r, input, output, background, blocked);
    OutputRedirectedIs(With(base[STDIN := InputOf(base, r, input, background, blocked)], r.dst, output), r, blocked);
  }

  /** The shell's table when `n` stages have been launched and hand back their write end. */
  function TableAfter(k: Kernel, n: nat, makepipe: bool): Table
    requires 0 < n
  {
    if makepipe then k.fds[WriteFd(n) := PipeWrite(k.nextPipe + (n - 1))] else k.fds
  }

  /** What launching leaves behind in the shell. */
  ghost predicate ShellAfter(k: Kernel, n: nat, makepipe: bool, l: Launched)
    requires 0 < n
  {
    && l.pipefd == (if makepipe then WriteFd(n) else -1)
    && l.k.fds == TableAfter(k, n, makepipe)
    && l.k.nextPipe == k.nextPipe + (if makepipe then n else n - 1)
    && l.k.nextPid == k.nextPid + n
    && l.k.blocked == k.blocked
  }

  /** The children launching adds, the last stage's first. */
  ghost predicate ChildrenAfter(k: Kernel, stages: seq<Stage>, makepipe: bool, background: bool, children: seq<Child>)
    requires STDIN in k.fds && STDOUT in k.fds
  {
    && |children| == |k.children| + |stages|
    && k.children <= children
    && forall i | 0 <= i < |stages| ::
         children[|k.children| + (|stages| - 1 - i)] == WiredChild(k, stages, makepipe, background, i)
  }

  /** Descriptors never go above 5; with the standard three open, that is never more than
      three others. */
  ghost predicate LowOnly(open: set<int>) {
    forall fd | fd in open :: 0 <= fd <= 5
  }

  ghost predicate TrailAfter(k: Kernel, trail: seq<set<int>>) {
    && k.trail <= trail
    && forall i | |k.trail| <= i < |trail| :: LowOnly(trail[i])
  }

  /** The descriptors a stage is started with: its input, its output, and the new write end. */
  datatype PipeEnds = PipeEnds(src: int, input: Description, dst: int, output: Description, w: int, end: Description)

  function WithEnds(base: Table, e: PipeEnds): Table {
    With(With(With(base, e.src, e.input), e.dst, e.output), e.w, e.end)
  }

  /** Stage 0 of the pipeline, after the stages to its right have been launched. */
  function EndsOf(k: Kernel, stages: seq<Stage>, makepipe: bool): PipeEnds
    requires stages != []
  {
    var n, r := |stages|, stages[0].redirection;
    PipeEnds(if makepipe then 3 else r.src, PipeRead(k.nextPipe + (n - 1)),
         if n > 1 then WriteFd(n - 1) else r.dst, PipeWrite(if n > 1 then k.nextPipe + (n - 2) else 0),
         if makepipe then WriteFd(n) else -1, PipeWrite(k.nextPipe + (n - 1)))
  }

  lemma WithEndsClosed(base: Table, e: PipeEnds)
    requires Clean(base)
    requires e.src != e.dst || e.src <= STDERR
    requires e.w == -1 || (e.w > STDERR && e.w != e.src && e.w != e.dst)
    ensures var fds := WithEnds(base, e);
      && (if e.w != -1 then Closed(fds, e.w) else fds) == With(With(base, e.src, e.input), e.dst, e.output)
      && (var fds1 := if e.src > STDOUT then Closed(fds, e.src) else fds;
          e.src !in {1, 2} && e.dst != 2 ==>
          (if e.dst > STDOUT then Closed(fds1, e.dst) else fds1) == With(base, e.w, e.end))
  {
  }

  lemma PipeMadeIs(k: Kernel, stages: seq<Stage>, makepipe: bool, rest: Launched)
    requires Clean(k.fds) && stages != [] && WellShaped(stages, makepipe)
    requires |stages| == 1 ==> rest == Launched(k, stages[0].redirection.dst, 0)
    requires |stages| > 1 ==> ShellAfter(k, |stages| - 1, true, rest)
    ensures var (k1, src, w) := PipeMade(rest.k, makepipe, stages[0].redirection.src);
      var e := EndsOf(k, stages, makepipe);
      && src == e.src && rest.pipefd == e.dst && w == e.w
      && k1.fds == WithEnds(k.fds, e)
      && k1.nextPipe == k.nextPipe + (if makepipe then |stages| else |stages| - 1)
      && k1.trail == rest.k.trail + (if makepipe then [k1.fds.Keys] else [])
      && k1 == rest.k.(fds := k1.fds, trail := k1.trail, nextPipe := k1.nextPipe)
  {
    assert WellShapedStage(stages[0].redirection, makepipe, |stages| > 1);
    if makepipe {
      PipedIs(k.fds, rest.k.fds, |stages| - 1, rest.k.nextPipe);
    }
  }

  lemma StageChild(k: Kernel, stages: seq<Stage>, makepipe: bool, background: bool)
    requires Clean(k.fds) && stages != [] && WellShaped(stages, makepipe)
    ensures var e := EndsOf(k, stages, makepipe);
      var r := stages[0].redirection.(src := e.src, dst := e.dst);
      Redirected(With(With(k.fds, e.src, e.input), e.dst, e.output), r, background, k.blocked) ==
      WiredChild(k, stages, makepipe, background, 0).fds
  {
    var e := EndsOf(k, stages, makepipe);
    assert WellShapedStage(stages[0].redirection, makepipe, |stages| > 1);
    RedirectedIs(k.fds, stages[0].redirection.(src := e.src, dst := e.dst), e.input, e.output, background, k.blocked);
  }

  /** One stage, launched after the stages to its right. */
  lemma StageWires(k: Kernel, stages: seq<Stage>, makepipe: bool, background: bool, rest: Launched)
    requires Clean(k.fds) && stages != [] && WellShaped(stages, makepipe) && External(stages[0].args)
    requires |stages| == 1 ==> rest == Launched(k, stages[0].redirection.dst, 0)
    requires |stages| > 1 ==> ShellAfter(k, |stages| - 1, true, rest)
    ensures var l := LaunchOne(rest.k, stages[0], rest.pipefd, makepipe, background);
            && ShellAfter(k, |stages|, makepipe, l)
            && l.k.children == rest.k.children + [WiredChild(k, stages, makepipe, background, 0)]
            && l.wpid == rest.k.nextPid
  {
    var e := EndsOf(k, stages, makepipe);
    assert WellShapedStage(stages[0].redirection, makepipe, |stages| > 1);
    PipeMadeIs(k, stages, makepipe, rest);
    WithEndsClosed(k.fds, e);
    StageChild(k, stages, makepipe, background);
    assert Tidy(WiredChild(k, stages, makepipe, background, 0).fds);
  }

  /** Closing descriptors opens none. */
  lemma InvokedTrail(k: Kernel, stage: Stage, background: bool, w: int)
    requires LowOnly(k.fds.Keys)
    ensures TrailAfter(k, Invoked(k, stage, background, w).0.trail)
  {
  }

  lemma StageTrail(k: Kernel, stages: seq<Stage>, makepipe: bool, background: bool, rest: Launched)
    requires Clean(k.fds) && stages != [] && WellShaped(stages, makepipe)
    requires |stages| == 1 ==> rest == Launched(k, stages[0].redirection.dst, 0)
    requires |stages| > 1 ==> ShellAfter(k, |stages| - 1, true, rest)
    ensures TrailAfter(rest.k, LaunchOne(rest.k, stages[0], rest.pipefd, makepipe, background).k.trail)
  {
    assert WellShapedStage(stages[0].redirection, makepipe, |stages| > 1);
    PipeMadeIs(k, stages, makepipe, rest);
    var (k1, src, w) := PipeMade(rest.k, makepipe, stages[0].redirection.src);
    InvokedTrail(k1, stages[0].(redirection := stages[0].redirection.(src := src, dst := rest.pipefd)), background, w);
  }

  lemma TrailJoins(k: Kernel, k1: Kernel, trail: seq<set<int>>)
    requires TrailAfter(k, k1.trail) && TrailAfter(k1, trail)
    ensures TrailAfter(k, trail)
  {
  }

  lemma ChildrenStep(k: Kernel, stages: seq<Stage>, makepipe: bool, background: bool, children: seq<Child>)
    requires STDIN in k.fds && STDOUT in k.fds && stages != []
    requires ChildrenAfter(k, stages[1..], true, background, children)
    ensures ChildrenAfter(k, stages, makepipe, background, children + [WiredChild(k, stages, makepipe, background, 0)])
  {
    forall i | 0 < i < |stages|
      ensures WiredChild(k, stages, makepipe, background, i) == WiredChild(k, stages[1..], true, background, i - 1)
    {
      assert stages[1..][i - 1] == stages[i];
    }
  }

  /** The launched pipeline is wired: the shell's table, the children and the trail are as
      above, and the process to wait for is the last stage's. */
  ghost predicate Wired(k: Kernel, stages: seq<Stage>, makepipe: bool, background: bool, l: Launched)
    requires STDIN in k.fds && STDOUT in k.fds && stages != []
  {
    && ShellAfter(k, |stages|, makepipe, l)
    && ChildrenAfter(k, stages, makepipe, background, l.k.children)
    && TrailAfter(k, l.k.trail)
    && l.wpid == k.nextPid
  }

  lemma WiredStep(k: Kernel, stages: seq<Stage>, makepipe: bool, background: bool, rest: Launched)
    requires Clean(k.fds) && |stages| > 1 && WellShaped(stages, makepipe) && External(stages[0].args)
    requires Wired(k, stages[1..], true, background, rest)
    ensures Wired(k, stages, makepipe, background,
                  LaunchOne(rest.k, stages[0], rest.pipefd, makepipe, background).(wpid := rest.wpid))
  {
    StageWires(k, stages, makepipe, background, rest);
    StageTrail(k, stages, makepipe, background, rest);
    var l := LaunchOne(rest.k, stages[0], rest.pipefd, makepipe, background);
    TrailJoins(k, rest.k, l.k.trail);
    ChildrenStep(k, stages, makepipe, background, rest.k.children);
  }

  lemma WiredOne(k: Kernel, stages: seq<Stage>, makepipe: bool, background: bool)
    requires Clean(k.fds) && |stages| == 1 && WellShaped(stages, makepipe) && External(stages[0].args)
    ensures Wired(k, stages, makepipe, background,
                  LaunchOne(k, stages[0], stages[0].redirection.dst, makepipe, background))
  {
    var rest := Launched(k, stages[0].redirection.dst, 0);
    StageWires(k, stages, makepipe, background, rest);
    StageTrail(k, stages, makepipe, background, rest);
  }

  /** Every pipeline of external commands is wired as written, whatever its length: stage by
      stage the children are the ones the command line describes, each with its three standard
      descriptors only; the shell keeps nothing but the end it was asked to hand back. */
  lemma {:induction false} LaunchWires(k: Kernel, stages: seq<Stage>, makepipe: bool, background: bool)
    requires Clean(k.fds) && stages != [] && WellShaped(stages, makepipe) && AllExternal(stages)
    ensures Wired(k, stages, makepipe, background, Launch(k, stages, makepipe, background))
    decreases |stages|
  {
    if |stages| == 1 {
      WiredOne(k, stages, makepipe, background);
    } else {
      WellShapedTail(stages, makepipe);
      LaunchWires(k, stages[1..], true, background);
      WiredStep(k, stages, makepipe, background, Launch(k, stages[1..], true, background));
    }
  }
}
