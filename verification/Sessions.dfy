/** A whole run of `start_shell` in communication/shell.c over a finite input. */
module Sessions {
  import opened Lexer
  import opened LexerGrammar
  import opened Descriptors
  import opened Launching
  import opened Wiring
  import opened Pipelines
  import opened CommandLine

  /** How a run ends: `start_shell` returns after a bad command, `command` exits at a read
      error, or `fd_check` exits because a descriptor above 2 is open. */
  datatype Ending = BadCommand | Exited | DescriptorsOpen

  /** The run as a function: line after line, each followed by the check of the descriptors. */
  function Session(k: Kernel, s: string, broken: bool): (Kernel, Ending)
    decreases |s|
  {
    match ParseLine(s, broken)
    case Stopped(token) => (k, if token == Error then BadCommand else Exited)
    case Line(stages, term, rest) =>
      var k1 := Launch(k, stages, false, term == Amp).k;
      if Tidy(k1.fds) then Session(k1, rest, broken) else (k1, DescriptorsOpen)
  }

  /** Every line of the input has one stage, or only stages that become processes. */
  predicate EveryLineTidy(s: string, broken: bool)
    decreases |s|
  {
    match ParseLine(s, broken)
    case Stopped(_) => true
    case Line(stages, _, rest) => (|stages| == 1 || AllExternal(stages)) && EveryLineTidy(rest, broken)
  }

  /** What holds between two lines. */
  ghost predicate Ready(k: Kernel) {
    Clean(k.fds) && PipesAreFresh(k)
  }

  /** A single stage that is no process changes nothing. */
  lemma NothingStarted(k: Kernel, stages: seq<Stage>, background: bool)
    requires |stages| == 1 && !External(stages[0].args)
    ensures Launch(k, stages, false, background).k == k
  {
  }

  lemma LineLeavesReady(k: Kernel, stages: seq<Stage>, background: bool)
    requires Ready(k) && stages != [] && WellShaped(stages, false)
    requires |stages| == 1 || AllExternal(stages)
    ensures var k1 := Launch(k, stages, false, background).k;
            Ready(k1) && k1.fds == k.fds && TrailAfter(k, k1.trail)
  {
    if AllExternal(stages) {
      LaunchWires(k, stages, false, background);
      PipesConnectNeighbours(k, stages, background);
    } else {
      NothingStarted(k, stages, background);
    }
  }

  /** On any input, well formed or not, the shell survives its own descriptor checks exactly
      when every line it reads is tidy.  Then it ends with the descriptors it began with, has
      never had one above 5, and every line found the pipes and descriptors as the wiring of
      pipelines needs them. */
  lemma {:induction false} SessionSurvivesIff(k: Kernel, s: string, broken: bool)
    requires Ready(k)
    ensures var (k1, ending) := Session(k, s, broken);
            && (ending != DescriptorsOpen <==> EveryLineTidy(s, broken))
            && (ending != DescriptorsOpen ==> Ready(k1) && k1.fds == k.fds && TrailAfter(k, k1.trail))
    decreases |s|
  {
    ParsedWellShaped(s, broken, false);
    var p := ParseLine(s, broken);
    if p.Line? {
      var k1 := Launch(k, p.stages, false, p.term == Amp).k;
      ShellTidyIff(k, p.stages, p.term == Amp);
      if |p.stages| == 1 || AllExternal(p.stages) {
        LineLeavesReady(k, p.stages, p.term == Amp);
        SessionSurvivesIff(k1, p.rest, broken);
        if EveryLineTidy(p.rest, broken) {
          TrailJoins(k, k1, Session(k1, p.rest, broken).0.trail);
        }
      }
    }
  }

  lemma {:induction false} StoppedBy(s: string, broken: bool, makepipe: bool)
    ensures var p := ParseFrom(s, broken, makepipe);
            p.Stopped? ==> p.token == if broken then EndOfFile else Error
    decreases |s|
  {
    ReadStoppedBy(s, broken, makepipe, EMPTY_STAGE);
    var r := ReadStage(s, broken, makepipe, EMPTY_STAGE);
    if r.token == Bar {
      StoppedBy(r.rest, broken, true);
    }
  }

  lemma {:induction false} ReadStoppedBy(s: string, broken: bool, makepipe: bool, stage: Stage)
    requires |stage.args| < MAXARG
    ensures var r := ReadStage(s, broken, makepipe, stage);
            r.token in {EndOfFile, Error} ==> r.token == if broken then EndOfFile else Error
    decreases |s|
  {
    NextConsumes(s, broken);
    ScanStoppedBy(Neutral, [], s, broken);
    var l := Next(s, broken);
    if !EndsStage(l.token, stage) {
      var (next, rest) := Absorbed(l, broken, makepipe, stage);
      ReadStoppedBy(rest, broken, makepipe, next);
    }
  }

  lemma {:induction false} ScanStoppedBy(state: State, text: string, s: string, broken: bool)
    ensures var l := Scan(state, text, s, broken);
            l.token in {EndOfFile, Error} ==> l.token == if broken then EndOfFile else Error
    decreases |s|
  {
    if s != [] {
      var c, t := s[0], s[1..];
      match state {
        case Neutral =>
          if IsBlank(c) {
            ScanStoppedBy(Neutral, text, t, broken);
          } else if c == '>' {
            ScanStoppedBy(SeenGt, text, t, broken);
          } else if c == '"' {
            ScanStoppedBy(InQuote, text, t, broken);
          } else {
            ScanStoppedBy(InWord, text + [c], t, broken);
          }
        case SeenGt =>
        case InQuote =>
          ScanStoppedBy(InQuote, text + [c], t, broken);
          if t != [] {
            ScanStoppedBy(InQuote, text + [t[0]], t[1..], broken);
          }
        case InWord =>
          ScanStoppedBy(InWord, text + [c], t, broken);
      }
    }
  }

  /** How a session ends, on any input: by the shell's own check if some line is not tidy;
      otherwise a clean end of the input is answered like a bad command, and only a read error is
      taken for the end. */
  lemma {:induction false} SessionEnds(k: Kernel, s: string, broken: bool)
    requires Ready(k)
    ensures Session(k, s, broken).1 ==
            if !EveryLineTidy(s, broken) then DescriptorsOpen else if broken then Exited else BadCommand
    decreases |s|
  {
    ParsedWellShaped(s, broken, false);
    StoppedBy(s, broken, false);
    var p := ParseLine(s, broken);
    if p.Line? {
      ShellTidyIff(k, p.stages, p.term == Amp);
      if |p.stages| == 1 || AllExternal(p.stages) {
        LineLeavesReady(k, p.stages, p.term == Amp);
        SessionEnds(Launch(k, p.stages, false, p.term == Amp).k, p.rest, broken);
      }
    }
  }

  // ---------- A line that ends the shell ----------

  predicate ShortWord(word: string) {
    PlainWord(word, word) && '\0' !in word && |word| <= 500
  }

  lemma ParsedTwoWords(name: string, other: string, rest: string, broken: bool)
    requires ShortWord(name) && ShortWord(other)
    ensures ParseLine(name + (['|'] + (other + (['\n'] + rest))), broken) ==
            Line([OfWords([name]), OfWords([other])], Newline, rest)
  {
    var right := other + (['\n'] + rest);
    ParsedOneWord(other, rest, broken, true);
    WordIsTaken(name, ['|'] + right, broken, false, EMPTY_STAGE);
    assert [] + [name] == [name] && [OfWords([name])] + [OfWords([other])] == [OfWords([name]), OfWords([other])];
    BarEnds(right, broken, false, OfWords([name]));
    ParsedMore(name + (['|'] + right), broken, false, OfWords([name]), right);
  }

  lemma ParsedOneWord(name: string, rest: string, broken: bool, makepipe: bool)
    requires ShortWord(name)
    ensures ParseFrom(name + (['\n'] + rest), broken, makepipe) == Line([OfWords([name])], Newline, rest)
  {
    WordIsTaken(name, ['\n'] + rest, broken, makepipe, EMPTY_STAGE);
    assert [] + [name] == [name];
    NewlineEnds(rest, broken, makepipe, OfWords([name]));
    ParsedOne(name + (['\n'] + rest), broken, makepipe, OfWords([name]), Newline, rest);
  }

  /** The commands that the shell runs itself are `set`, `cd` and every word with `=` in it: a line
      of one word starts one process for any other word, and none for these. */
  lemma BuiltinsStartNothing(k: Kernel, name: string, rest: string, broken: bool)
    requires ShortWord(name)
    ensures var p := ParseLine(name + (['\n'] + rest), broken);
      && p.Line?
      && var k1 := Launch(k, p.stages, false, p.term == Amp).k;
         if '=' in name || name == "set" || name == "cd" then k1 == k
         else |k1.children| == |k.children| + 1 && k1.children[|k.children|].args == [name]
  {
    ParsedOneWord(name, rest, broken, false);
    LaunchCons(k, OfWords([name]), [], false, false);
    assert [OfWords([name])] + [] == [OfWords([name])];
  }

  /** A builtin before a bar ends the shell in its own check, whatever was to come. */
  lemma PipedBuiltinEndsShell(k: Kernel, name: string, other: string, rest: string, broken: bool)
    requires Ready(k) && ShortWord(name) && ShortWord(other) && Builtin(name)
    ensures Session(k, name + (['|'] + (other + (['\n'] + rest))), broken).1 == DescriptorsOpen
  {
    var s, stages := name + (['|'] + (other + (['\n'] + rest))), [OfWords([name]), OfWords([other])];
    ParsedTwoWords(name, other, rest, broken);
    ParsedWellShaped(s, broken, false);
    assert !External(stages[0].args);
    ShellTidyIff(k, stages, false);
  }

  /** For example `cd`. */
  lemma CdEndsShell(k: Kernel, broken: bool)
    requires Ready(k)
    ensures Session(k, "cd|ls\n", broken).1 == DescriptorsOpen
  {
    PipedBuiltinEndsShell(k, "cd", "ls", "", broken);
    assert "cd|ls\n" == "cd" + (['|'] + ("ls" + (['\n'] + "")));
  }

  // ---------- The wiring of a whole session ----------

  /** Every child so far was started with exactly the three standard descriptors, and every pipe
      from number `base` on has one process that writes and one that reads. */
  ghost predicate AllWired(k: Kernel, base: nat) {
    && base <= k.nextPipe && NoPipeFrom(k.fds, base)
    && (forall c | 0 <= c < |k.children| :: k.children[c].execs && Clean(k.children[c].fds))
    && (forall p | base <= p < k.nextPipe :: Connected(k, p))
  }

  ghost predicate Connected(k: Kernel, p: nat) {
    exists w: nat, r: nat :: Connects(p, k, w, r)
  }

  /** A child of a later line holds no pipe of an earlier one. */
  lemma LaterHoldsNone(k: Kernel, stages: seq<Stage>, background: bool, base: nat, p: nat, i: nat, fd: int)
    requires Clean(k.fds) && NoPipeFrom(k.fds, base) && base <= p < k.nextPipe && i < |stages|
    requires fd in WiredChild(k, stages, false, background, i).fds
    ensures WiredChild(k, stages, false, background, i).fds[fd] != PipeWrite(p)
    ensures WiredChild(k, stages, false, background, i).fds[fd] != PipeRead(p)
  {
    assert OlderPipe(k.fds[STDIN], base) && OlderPipe(k.fds[STDOUT], base) && OlderPipe(k.fds[STDERR], base);
  }

  lemma StaysConnected(k: Kernel, stages: seq<Stage>, background: bool, base: nat, p: nat, after: Kernel)
    requires Clean(k.fds) && NoPipeFrom(k.fds, base) && base <= p < k.nextPipe && Connected(k, p)
    requires after.fds == k.fds && ChildrenAfter(k, stages, false, background, after.children)
    ensures Connected(after, p)
  {
    var w: nat, r: nat :| Connects(p, k, w, r);
    forall c, fd | 0 <= c < |after.children| && fd in after.children[c].fds
      ensures after.children[c].fds[fd] == PipeWrite(p) <==> c == w && fd == STDOUT
      ensures after.children[c].fds[fd] == PipeRead(p) <==> c == r && fd == STDIN
    {
      if c < |k.children| {
        assert after.children[c] == k.children[c];
      } else {
        var i := |after.children| - 1 - c;
        assert after.children[|k.children| + (|stages| - 1 - i)] == WiredChild(k, stages, false, background, i);
        LaterHoldsNone(k, stages, background, base, p, i, fd);
      }
    }
    assert after.children[w] == k.children[w] && after.children[r] == k.children[r];
    assert Connects(p, after, w, r);
  }

  lemma ChildrenRan(k: Kernel, stages: seq<Stage>, background: bool, children: seq<Child>, c: nat)
    requires Clean(k.fds) && ChildrenAfter(k, stages, false, background, children) && c < |children|
    requires forall i | 0 <= i < |k.children| :: k.children[i].execs && Clean(k.children[i].fds)
    ensures children[c].execs && Clean(children[c].fds)
  {
    if c < |k.children| {
      assert children[c] == k.children[c];
    } else {
      var i := |children| - 1 - c;
      assert children[|k.children| + (|stages| - 1 - i)] == WiredChild(k, stages, false, background, i);
    }
  }

  lemma PipesConnected(k: Kernel, stages: seq<Stage>, background: bool, base: nat, p: nat)
    requires Ready(k) && AllWired(k, base) && stages != [] && WellShaped(stages, false) && AllExternal(stages)
    requires base <= p < Launch(k, stages, false, background).k.nextPipe
    ensures Connected(Launch(k, stages, false, background).k, p)
  {
    var n, after := |stages|, Launch(k, stages, false, background).k;
    LaunchWires(k, stages, false, background);
    if p < k.nextPipe {
      StaysConnected(k, stages, background, base, p, after);
    } else {
      PipesConnectNeighbours(k, stages, background);
      var i := n - 1 - (p - k.nextPipe);
      assert OneWriterOneReader(k, n, i, after) && PipeInto(k, n, i) == p;
    }
  }

  lemma LineKeepsWired(k: Kernel, stages: seq<Stage>, background: bool, base: nat)
    requires Ready(k) && AllWired(k, base) && stages != [] && WellShaped(stages, false)
    requires |stages| == 1 || AllExternal(stages)
    ensures AllWired(Launch(k, stages, false, background).k, base)
  {
    if AllExternal(stages) {
      var after := Launch(k, stages, false, background).k;
      LaunchWires(k, stages, false, background);
      forall p | base <= p < after.nextPipe ensures Connected(after, p) {
        PipesConnected(k, stages, background, base, p);
      }
      forall c | 0 <= c < |after.children| ensures after.children[c].execs && Clean(after.children[c].fds) {
        ChildrenRan(k, stages, background, after.children, c);
      }
    } else {
      NothingStarted(k, stages, background);
    }
  }

  /** Over a whole session of tidy lines, however many: every child ever started gets as far as its
      program, with exactly the three standard descriptors; and every pipe ever made has exactly
      one process that can write to it and one that can read from it. */
  lemma {:induction false} SessionKeepsWired(k: Kernel, s: string, broken: bool, base: nat)
    requires Ready(k) && AllWired(k, base) && EveryLineTidy(s, broken)
    ensures AllWired(Session(k, s, broken).0, base)
    decreases |s|
  {
    ParsedWellShaped(s, broken, false);
    var p := ParseLine(s, broken);
    if p.Line? {
      ShellTidyIff(k, p.stages, p.term == Amp);
      LineLeavesReady(k, p.stages, p.term == Amp);
      LineKeepsWired(k, p.stages, p.term == Amp, base);
      SessionKeepsWired(Launch(k, p.stages, false, p.term == Amp).k, p.rest, broken, base);
    }
  }

  /** So it is from the start of the shell. */
  lemma SessionWires(k: Kernel, s: string, broken: bool)
    requires Ready(k) && k.children == [] && EveryLineTidy(s, broken)
    ensures AllWired(Session(k, s, broken).0, k.nextPipe)
  {
    SessionKeepsWired(k, s, broken, k.nextPipe);
  }

  // ---------- The processes to wait for ----------

  /** Whatever the pipeline, the process handed to `wait_and_display` is the last stage's, which
      is the first one started; if that stage is no process there is nothing to wait for. */
  lemma {:induction false} WaitsForLast(k: Kernel, stages: seq<Stage>, makepipe: bool, background: bool)
    requires stages != []
    ensures var l := Launch(k, stages, makepipe, background);
            && l.k.nextPid == k.nextPid + Externals(stages)
            && l.wpid == (if External(stages[|stages| - 1].args) then k.nextPid else 0)
            && (External(stages[|stages| - 1].args) ==> k.nextPid < l.k.nextPid)
    decreases |stages|
  {
    if |stages| > 1 {
      WaitsForLast(k, stages[1..], true, background);
    }
    var rest := LaunchAfter(k, stages[1..], stages[0].redirection.dst, background);
    LaunchesOne(rest.k, stages[0], rest.pipefd, makepipe, background);
  }

  lemma LaunchesOne(k: Kernel, stage: Stage, dst: int, makepipe: bool, background: bool)
    ensures var l := LaunchOne(k, stage, dst, makepipe, background);
            if External(stage.args) then l.k.nextPid == k.nextPid + 1 && l.wpid == k.nextPid
            else l.k.nextPid == k.nextPid && l.wpid == 0
  {
  }

  datatype CommandRead = CommandRead(stages: seq<Stage>, term: Token)

  /** The lines of an input, as they are read. */
  function LinesOf(s: string, broken: bool): seq<CommandRead>
    decreases |s|
  {
    match ParseLine(s, broken)
    case Stopped(_) => []
    case Line(stages, term, rest) => [CommandRead(stages, term)] + LinesOf(rest, broken)
  }

  /** The processes the shell waits for, line after line: of each line in the foreground the one
      that `command` names; until a line that ends the shell. */
  function Awaited(k: Kernel, lines: seq<CommandRead>): seq<int>
    requires forall i | 0 <= i < |lines| :: lines[i].stages != []
    decreases |lines|
  {
    if lines == [] then []
    else
      var l := Launch(k, lines[0].stages, false, lines[0].term == Amp);
      AwaitedOf(l, lines[0].term) + if Tidy(l.k.fds) then Awaited(l.k, lines[1..]) else []
  }

  function AwaitedOf(l: Launched, term: Token): seq<int> {
    if term != Amp && l.wpid > 0 then [l.wpid] else []
  }

  /** Told from the lines alone, `pid` being the next process number: of every line in the
      foreground whose last stage becomes a process, the first process started; until a line that
      ends the shell. */
  function ForegroundPids(lines: seq<CommandRead>, pid: int): seq<int>
    requires forall i | 0 <= i < |lines| :: lines[i].stages != []
  {
    if lines == [] then []
    else
      var stages := lines[0].stages;
      (if lines[0].term in {Semi, Newline} && External(stages[|stages| - 1].args) then [pid] else []) +
      (if |stages| == 1 || AllExternal(stages) then ForegroundPids(lines[1..], pid + Externals(stages)) else [])
  }

  ghost predicate LinesShaped(lines: seq<CommandRead>) {
    forall i | 0 <= i < |lines| ::
      lines[i].stages != [] && WellShaped(lines[i].stages, false) && lines[i].term in {Amp, Semi, Newline}
  }

  lemma {:induction false} LinesAreShaped(s: string, broken: bool)
    ensures LinesShaped(LinesOf(s, broken))
    decreases |s|
  {
    ParsedWellShaped(s, broken, false);
    var p := ParseLine(s, broken);
    if p.Line? {
      LinesAreShaped(p.rest, broken);
    }
  }

  lemma LinesNext(s: string, broken: bool)
    ensures var p := ParseLine(s, broken);
            LinesOf(s, broken) == if p.Stopped? then [] else [CommandRead(p.stages, p.term)] + LinesOf(p.rest, broken)
  {
  }

  lemma LineAwaits(k: Kernel, stages: seq<Stage>, term: Token)
    requires Ready(k) && 1 <= k.nextPid && stages != [] && WellShaped(stages, false)
    ensures var l := Launch(k, stages, false, term == Amp);
      && AwaitedOf(l, term) == (if term != Amp && External(stages[|stages| - 1].args) then [k.nextPid] else [])
      && l.k.nextPid == k.nextPid + Externals(stages)
      && (Tidy(l.k.fds) <==> |stages| == 1 || AllExternal(stages))
      && (Tidy(l.k.fds) ==> Ready(l.k))
  {
    ShellTidyIff(k, stages, term == Amp);
    WaitsForLast(k, stages, false, term == Amp);
    if |stages| == 1 || AllExternal(stages) {
      LineLeavesReady(k, stages, term == Amp);
    }
  }

  /** These are the processes the shell waits for. */
  lemma {:induction false} AwaitedAre(k: Kernel, lines: seq<CommandRead>)
    requires Ready(k) && 1 <= k.nextPid && LinesShaped(lines)
    ensures Awaited(k, lines) == ForegroundPids(lines, k.nextPid)
    decreases |lines|
  {
    if lines != [] {
      var stages, term, more := lines[0].stages, lines[0].term, [];
      assert WellShaped(stages, false);
      var l := Launch(k, stages, false, term == Amp);
      LineAwaits(k, stages, term);
      if |stages| == 1 || AllExternal(stages) {
        AwaitedAre(l.k, lines[1..]);
        more := Awaited(l.k, lines[1..]);
      }
      AwaitedHead(k, lines, l, more);
      ForegroundHead(lines, k.nextPid, AwaitedOf(l, term), more);
    }
  }

  lemma AwaitedHead(k: Kernel, lines: seq<CommandRead>, l: Launched, more: seq<int>)
    requires lines != [] && forall i | 0 <= i < |lines| :: lines[i].stages != []
    requires l == Launch(k, lines[0].stages, false, lines[0].term == Amp)
    requires more == if Tidy(l.k.fds) then Awaited(l.k, lines[1..]) else []
    ensures Awaited(k, lines) == AwaitedOf(l, lines[0].term) + more
  {
  }

  lemma ForegroundHead(lines: seq<CommandRead>, pid: int, own: seq<int>, more: seq<int>)
    requires lines != [] && forall i | 0 <= i < |lines| :: lines[i].stages != []
    requires var stages := lines[0].stages;
      && own == (if lines[0].term in {Semi, Newline} && External(stages[|stages| - 1].args) then [pid] else [])
      && more == (if |stages| == 1 || AllExternal(stages)
                  then ForegroundPids(lines[1..], pid + Externals(stages)) else [])
    ensures ForegroundPids(lines, pid) == own + more
  {
  }

  /** Lines that all end in `&` leave nothing to wait for. */
  lemma {:induction false} NoneAwaited(k: Kernel, lines: seq<CommandRead>)
    requires forall i | 0 <= i < |lines| :: lines[i].stages != [] && lines[i].term == Amp
    ensures Awaited(k, lines) == []
    decreases |lines|
  {
    if lines != [] {
      NoneAwaited(Launch(k, lines[0].stages, false, true).k, lines[1..]);
    }
  }
}
