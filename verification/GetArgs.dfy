/** `getargs` of process/cl.c: a line read into a fixed buffer and cut into words in place. */
module GetArgs {
  import opened CStrings
  import opened Lexer

  const MAXLINE := 200
  const MAXARG := 20

  /** How a call ends: with the words, at the end of the input, with a complaint, or, when a
      long line is skipped and the input ends before it does, not at all. */
  datatype Outcome = Args(argc: nat) | EndOfInput | TooLong | TooMany | Hangs

  /** How many characters `fgets` takes with room for `room`: through the first newline. */
  function Taken(s: string, room: nat): (n: nat)
    ensures n <= |s| && n <= room
  {
    if room == 0 || s == [] then 0 else if s[0] == '\n' then 1 else 1 + Taken(s[1..], room - 1)
  }

  predicate IsSeparator(c: char) {
    c == ' ' || c == '\t' || c == '\n'
  }

  /** The characters `s` begins with that are separators, or that are not. */
  function Run(s: string, separators: bool): (n: nat)
    ensures n <= |s|
    ensures forall i | 0 <= i < n :: IsSeparator(s[i]) == separators
    ensures n < |s| ==> IsSeparator(s[n]) != separators
  {
    if s == [] || IsSeparator(s[0]) != separators then 0 else 1 + Run(s[1..], separators)
  }

  /** The words of a string. */
  function Split(s: string): (words: seq<string>)
    decreases |s|
  {
    var t := s[Run(s, true)..];
    if t == [] then [] else [t[..Run(t, false)]] + Split(t[Run(t, false)..])
  }

  /** What is left of a string at its first word, that word, and what `strtok` leaves after it. */
  function FromWord(s: string): string {
    s[Run(s, true)..]
  }

  function FirstWord(s: string): string {
    FromWord(s)[..Run(FromWord(s), false)]
  }

  function AfterWord(s: string): string {
    AfterRun(FromWord(s))
  }

  /** What is left after the word that `t` begins with, and the separator after it. */
  function AfterRun(t: string): string {
    var n := Run(t, false);
    if n == |t| then [] else t[n + 1..]
  }

  /** The C string at `from` in a buffer. */
  function At(buffer: seq<char>, from: nat): string
    requires from <= |buffer|
  {
    UpToNul(buffer[from..])
  }

  /** The word `w`, with its NUL, stands at `from`, and ends before `bound` at the latest. */
  predicate WordAt(buffer: seq<char>, from: int, w: string, bound: int) {
    0 <= from && Holds(buffer, from, w) && from + |w| <= bound
  }

  /** The buffer holds the string `r`, with its NUL, from `from` on. */
  predicate Holds(buffer: seq<char>, from: nat, r: string) {
    && from + |r| < |buffer| && '\0' !in r
    && buffer[from..from + |r|] == r && buffer[from + |r|] == '\0'
  }

  lemma HoldsAt(buffer: seq<char>, from: nat, r: string)
    requires Holds(buffer, from, r)
    ensures At(buffer, from) == r
  {
    assert buffer[from..][..|r|] == r && buffer[from..][|r|] == '\0';
    UpToNulIs(buffer[from..], r);
  }

  /** A rest of a string in a buffer. */
  lemma HoldsRest(buffer: seq<char>, from: nat, r: string, k: nat)
    requires Holds(buffer, from, r) && k <= |r|
    ensures Holds(buffer, from + k, r[k..])
    ensures forall i | 0 <= i < |r| :: buffer[from + i] == r[i]
  {
    forall i | 0 <= i < |r| ensures buffer[from + i] == r[i] {
      assert buffer[from..from + |r|][i] == r[i];
    }
    assert buffer[from + k..from + |r|] == r[k..];
  }

  /** Nothing changes, or one character from `from` on that is not a NUL becomes one. */
  predicate Cuts(before: seq<char>, after: seq<char>, from: nat, p: int) {
    |after| == |before| &&
    if from <= p < |before| then before[p] != '\0' && after == before[p := '\0'] else after == before
  }

  /** A string cut in two by a NUL. */
  lemma HoldsCut(buffer: seq<char>, from: nat, r: string, n: nat)
    requires Holds(buffer, from, r) && n < |r|
    ensures buffer[from + n] == r[n] != '\0'
    ensures var cut := buffer[from + n := '\0'];
            Holds(cut, from, r[..n]) && Holds(cut, from + n + 1, r[n + 1..])
  {
    HoldsRest(buffer, from, r, n + 1);
    assert buffer[from + n] == r[n] && r[n] in r;
    var cut := buffer[from + n := '\0'];
    assert cut[from..from + n] == buffer[from..from + |r|][..n] == r[..n];
    assert cut[from + n + 1..from + |r|] == buffer[from + n + 1..from + |r|];
  }

  /** Whether the character at place `from + k` goes on with the run that `r` begins with. */
  lemma RunGoesOn(buffer: seq<char>, from: nat, r: string, separators: bool, k: nat)
    requires Holds(buffer, from, r) && k <= Run(r, separators)
    ensures from + k < |buffer|
    ensures buffer[from + k] != '\0' && IsSeparator(buffer[from + k]) == separators <==> k < Run(r, separators)
  {
    HoldsRest(buffer, from, r, k);
    assert k < |r| ==> r[k] in r;
  }

  /** The scan over separators, or over a word. */
  method Span(cmd: array<char>, from: nat, separators: bool, ghost r: string) returns (i: nat)
    requires Holds(cmd[..], from, r)
    ensures i == from + Run(r, separators) && Holds(cmd[..], i, r[Run(r, separators)..])
  {
    ghost var buffer, n := cmd[..], Run(r, separators);
    i := from;
    RunGoesOn(buffer, from, r, separators, 0);
    while cmd[i] != '\0' && IsSeparator(cmd[i]) == separators
      invariant from <= i <= from + n && i < cmd.Length
      invariant cmd[i] != '\0' && IsSeparator(cmd[i]) == separators <==> i < from + n
      decreases from + n - i
    {
      i := i + 1;
      RunGoesOn(buffer, from, r, separators, i - from);
    }
    HoldsRest(buffer, from, r, n);
  }

  /** The word that `t` begins with is ended by a NUL: where to go on, and the place of the cut (-1
      if the string ends there anyway). */
  method CutWord(cmd: array<char>, start: nat, ghost t: string) returns (next: nat, ghost p: int)
    requires Holds(cmd[..], start, t)
    modifies cmd
    ensures Cuts(old(cmd[..]), cmd[..], start, p) && (p == -1 || start <= p)
    ensures WordAt(cmd[..], start, t[..Run(t, false)], next) && Holds(cmd[..], next, AfterRun(t))
  {
    ghost var before, n := cmd[..], Run(t, false);
    var i := Span(cmd, start, false, t);
    if cmd[i] == '\0' {
      assert n == |t| && t[..n] == t && t[n..] == [];
      return i, -1;
    }
    HoldsCut(before, start, t, n);
    cmd[i] := '\0';
    assert cmd[..] == before[start + n := '\0'];
    return i + 1, i;
  }

  /** `strtok` with the separators blank, tab and newline, from where it last stopped: the word
      it returns (-1 for none), where it stops now, and the place it cut (-1 for none). */
  method Strtok(cmd: array<char>, from: nat, ghost r: string) returns (start: int, next: nat, ghost p: int)
    requires Holds(cmd[..], from, r)
    modifies cmd
    ensures Cuts(old(cmd[..]), cmd[..], from, p)
    ensures if FromWord(r) == [] then start == -1
      else
        && start == from + Run(r, true)
        && WordAt(cmd[..], start, FirstWord(r), next)
        && Holds(cmd[..], next, AfterWord(r))
  {
    var i := Span(cmd, from, true, r);
    if cmd[i] == '\0' {
      return -1, i, -1;
    }
    start := i;
    next, p := CutWord(cmd, i, FromWord(r));
  }

  /** `fgets`: characters up to the first newline, as far as they fit, and a NUL. */
  method Fgets(stdin: Stdin, cmd: array<char>) returns (ok: bool)
    requires 0 < cmd.Length
    modifies stdin, cmd
    ensures var n := Taken(old(stdin.unread), cmd.Length - 1);
      && stdin.unread == old(stdin.unread)[n..]
      && (ok <==> n > 0)
      && (ok ==> cmd[..n] == old(stdin.unread)[..n] && cmd[n] == '\0')
  {
    ghost var s, n := stdin.unread, Taken(stdin.unread, cmd.Length - 1);
    var i := 0;
    while i < cmd.Length - 1
      invariant 0 <= i <= n && stdin.unread == s[i..] && cmd[..i] == s[..i]
      invariant n == i + Taken(s[i..], cmd.Length - 1 - i)
    {
      var c := stdin.GetChar();
      if c == Eof {
        break;
      }
      assert s[i..][1..] == s[i + 1..];
      cmd[i] := c.c;
      i := i + 1;
      if c.c == '\n' {
        break;
      }
    }
    ok := i > 0;
    if ok {
      cmd[i] := '\0';
    }
  }

  /** What a call does: its outcome, and the input it leaves. */
  function Result(s: string, max: nat): (Outcome, string) {
    var n := Taken(s, MAXLINE - 1);
    var line, rest := UpToNul(s[..n]), s[n..];
    if n == 0 then (EndOfInput, rest)
    else if '\n' !in line then
      var m := Taken(rest, |rest|);
      (if 0 < m && rest[m - 1] == '\n' then TooLong else Hangs, rest[m..])
    else if |Split(line)| >= max then (TooMany, rest)
    else (Args(|Split(line)|), rest)
  }

  /** The words of the line at the front of the input. */
  function LineWords(s: string): seq<string> {
    Split(UpToNul(s[..Taken(s, MAXLINE - 1)]))
  }

  /** The loop that eats up the rest of a long line; at the end of the input it never ends,
      which is `hangs`. */
  method SkipLine(stdin: Stdin) returns (hangs: bool)
    modifies stdin
    ensures var s := old(stdin.unread);
            var m := Taken(s, |s|);
            stdin.unread == s[m..] && hangs == !(0 < m && s[m - 1] == '\n')
  {
    ghost var s := stdin.unread;
    ghost var i := 0;
    while true
      invariant 0 <= i <= |s| && stdin.unread == s[i..]
      invariant Taken(s, |s|) == i + Taken(s[i..], |s| - i)
      invariant i > 0 ==> s[i - 1] != '\n'
      decreases |s| - i
    {
      var c := stdin.GetChar();
      if c == Eof {
        return true;
      }
      assert s[i..][1..] == s[i + 1..];
      if c.c == '\n' {
        return false;
      }
      i := i + 1;
    }
  }

  lemma {:induction false} RunSeparator(s: string)
    requires s != [] && IsSeparator(s[0])
    ensures Split(s) == Split(s[1..])
  {
    assert s[Run(s, true)..] == s[1..][Run(s[1..], true)..];
  }

  lemma SeparatorSkipped(t: string, n: nat)
    requires n < |t| && IsSeparator(t[n])
    ensures Split(t[n..]) == Split(t[n + 1..])
  {
    RunSeparator(t[n..]);
    assert t[n..][1..] == t[n + 1..];
  }

  /** `strtok` takes the words one by one. */
  lemma SplitStep(r: string)
    ensures Split(r) == if FromWord(r) == [] then [] else [FirstWord(r)] + Split(AfterWord(r))
  {
    var t := FromWord(r);
    if t != [] {
      var n := Run(t, false);
      assert Split(r) == [t[..n]] + Split(t[n..]);
      if n < |t| {
        SeparatorSkipped(t, n);
      } else {
        assert t[n..] == [];
      }
    }
  }

  // ---------- What a word is ----------

  predicate InWord(c: char) {
    c != ' ' && c != '\t' && c != '\n'
  }

  /** `words` are the maximal runs of characters of `s` other than blank, tab and newline, in order;
      they begin at the places `starts`. */
  ghost predicate AreTheRuns(s: string, words: seq<string>, starts: seq<nat>) {
    && |starts| == |words|
    && (forall i | 0 <= i < |words| ::
          words[i] != [] && starts[i] + |words[i]| <= |s| && s[starts[i]..starts[i] + |words[i]|] == words[i])
    && (forall i | 0 < i < |words| :: starts[i - 1] + |words[i - 1]| < starts[i])
    && (forall k | 0 <= k < |s| :: InWord(s[k]) <==> InSome(words, starts, k))
  }

  ghost predicate InSome(words: seq<string>, starts: seq<nat>, k: nat) {
    exists i | 0 <= i < |words| && i < |starts| :: starts[i] <= k < starts[i] + |words[i]|
  }

  function Shifted(starts: seq<nat>, n: nat): (r: seq<nat>)
    ensures |r| == |starts| && forall i | 0 <= i < |r| :: r[i] == starts[i] + n
  {
    seq(|starts|, i requires 0 <= i < |starts| => starts[i] + n)
  }

  /** The string up to `e` is one word from `m` on, and a separator follows, if anything does. */
  predicate OneWordThrough(s: string, m: nat, e: nat) {
    && m < e <= |s| && (forall k | 0 <= k < m :: !InWord(s[k])) && (forall k | m <= k < e :: InWord(s[k]))
    && (e < |s| ==> !InWord(s[e]))
  }

  lemma RunsMore(s: string, m: nat, e: nat, words: seq<string>, starts: seq<nat>)
    requires OneWordThrough(s, m, e) && AreTheRuns(s[e..], words, starts)
    ensures AreTheRuns(s, [s[m..e]] + words, [m] + Shifted(starts, e))
  {
    RunsStand(s, m, e, words, starts);
    RunsApart(s, m, e, words, starts);
    forall k | 0 <= k < |s| ensures InWord(s[k]) <==> InSome([s[m..e]] + words, [m] + Shifted(starts, e), k) {
      RunsCover(s, m, e, words, starts, k);
    }
  }

  lemma RunsStand(s: string, m: nat, e: nat, words: seq<string>, starts: seq<nat>)
    requires OneWordThrough(s, m, e) && AreTheRuns(s[e..], words, starts)
    ensures var w1, s1 := [s[m..e]] + words, [m] + Shifted(starts, e);
      forall i | 0 <= i < |w1| ::
        w1[i] != [] && s1[i] + |w1[i]| <= |s| && s[s1[i]..s1[i] + |w1[i]|] == w1[i]
  {
    var w1, s1 := [s[m..e]] + words, [m] + Shifted(starts, e);
    forall i | 0 <= i < |w1|
      ensures w1[i] != [] && s1[i] + |w1[i]| <= |s| && s[s1[i]..s1[i] + |w1[i]|] == w1[i]
    {
      if i > 0 {
        var p, n := starts[i - 1], |words[i - 1]|;
        assert w1[i] == words[i - 1] && s1[i] == p + e;
        SliceOfRest(s, e, p, p + n);
      }
    }
  }

  lemma SliceOfRest(s: string, e: nat, a: nat, b: nat)
    requires e <= |s| && a <= b <= |s| - e
    ensures s[e..][a..b] == s[a + e..b + e]
  {
  }

  lemma RunsApart(s: string, m: nat, e: nat, words: seq<string>, starts: seq<nat>)
    requires OneWordThrough(s, m, e) && AreTheRuns(s[e..], words, starts)
    ensures var w1, s1 := [s[m..e]] + words, [m] + Shifted(starts, e);
      forall i | 0 < i < |w1| :: s1[i - 1] + |w1[i - 1]| < s1[i]
  {
    var w1, s1 := [s[m..e]] + words, [m] + Shifted(starts, e);
    forall i | 0 < i < |w1| ensures s1[i - 1] + |w1[i - 1]| < s1[i] {
      if i == 1 {
        RunStartsIn(s[e..], words, starts);
        assert s[e..][starts[0]] == s[e + starts[0]];
      } else {
        assert starts[i - 1 - 1] + |words[i - 1 - 1]| < starts[i - 1];
        assert w1[i - 1] == words[i - 2] && s1[i - 1] == starts[i - 2] + e && s1[i] == starts[i - 1] + e;
      }
    }
  }

  lemma RunStartsIn(s: string, words: seq<string>, starts: seq<nat>)
    requires AreTheRuns(s, words, starts) && words != []
    ensures starts[0] < |s| && InWord(s[starts[0]])
  {
    assert InSome(words, starts, starts[0]);
  }

  lemma RunsCover(s: string, m: nat, e: nat, words: seq<string>, starts: seq<nat>, k: nat)
    requires OneWordThrough(s, m, e) && AreTheRuns(s[e..], words, starts) && k < |s|
    ensures InWord(s[k]) <==> InSome([s[m..e]] + words, [m] + Shifted(starts, e), k)
  {
    var w1, s1 := [s[m..e]] + words, [m] + Shifted(starts, e);
    if k < e {
      assert s1[0] == m && |w1[0]| == e - m && forall i | 0 < i < |s1| :: s1[i] >= e;
      if m <= k {
        assert s1[0] <= k < s1[0] + |w1[0]|;
      }
    } else {
      InSomeMore(words, starts, [s[m..e]], [m], e, k);
      assert s[e..][k - e] == s[k];
    }
  }

  lemma InSomeMore(words: seq<string>, starts: seq<nat>, w: seq<string>, s: seq<nat>, e: nat, k: nat)
    requires |starts| == |words| && |w| == |s| == 1 && s[0] + |w[0]| == e <= k
    ensures InSome(w + words, s + Shifted(starts, e), k) <==> InSome(words, starts, k - e)
  {
    var w1, s1 := w + words, s + Shifted(starts, e);
    if InSome(w1, s1, k) {
      var i :| 0 <= i < |w1| && i < |s1| && s1[i] <= k < s1[i] + |w1[i]|;
      assert i > 0 && starts[i - 1] <= k - e < starts[i - 1] + |words[i - 1]|;
    }
    if InSome(words, starts, k - e) {
      var i :| 0 <= i < |words| && i < |starts| && starts[i] <= k - e < starts[i] + |words[i]|;
      assert s1[i + 1] == starts[i] + e && w1[i + 1] == words[i];
    }
  }

  lemma SplitFirst(s: string) returns (m: nat, e: nat)
    requires FromWord(s) != []
    ensures OneWordThrough(s, m, e) && Split(s) == [s[m..e]] + Split(s[e..])
  {
    m := Run(s, true);
    var t := s[m..];
    var n := Run(t, false);
    e := m + n;
    assert forall k | m <= k < e :: s[k] == t[k - m];
    assert (e < |s| ==> s[e] == t[n]) && t[0] == s[m];
    assert t[..n] == s[m..e] && t[n..] == s[e..];
  }

  lemma SplitNone(s: string)
    requires FromWord(s) == []
    ensures Split(s) == [] && forall k | 0 <= k < |s| :: !InWord(s[k])
  {
    SplitStep(s);
    forall k | 0 <= k < |s| ensures !InWord(s[k]) {
      assert k < Run(s, true) && IsSeparator(s[k]);
    }
  }

  /** For every string, whatever is in it: the words it is split into are its maximal runs of
      characters other than blank, tab and newline. */
  lemma {:induction false} WordsAreTheRuns(s: string) returns (starts: seq<nat>)
    ensures AreTheRuns(s, Split(s), starts)
    decreases |s|
  {
    if FromWord(s) == [] {
      SplitNone(s);
      starts := [];
    } else {
      var m, e := SplitFirst(s);
      var more := WordsAreTheRuns(s[e..]);
      RunsMore(s, m, e, Split(s[e..]), more);
      starts := [m] + Shifted(more, e);
    }
  }

  /** The first `k` words stand where the first `k` pointers say, before `bound`. */
  predicate Placed(buffer: seq<char>, ptrs: seq<int>, words: seq<string>, k: nat, bound: int)
    requires k <= |ptrs| && k <= |words|
  {
    forall i | 0 <= i < k :: WordAt(buffer, ptrs[i], words[i], bound)
  }

  /** Later cuts leave the words before them alone. */
  lemma WordKept(before: seq<char>, after: seq<char>, from: nat, p: int, start: int, w: string, bound: int)
    requires WordAt(before, start, w, from) && Cuts(before, after, from, p) && from <= bound
    ensures WordAt(after, start, w, bound)
  {
    if from <= p < |before| {
      assert p != start + |w|;
      assert after[start..start + |w|] == before[start..start + |w|];
    }
  }

  lemma LineHolds(buffer: seq<char>, line: string)
    requires |line| < |buffer| && buffer[..|line|] == line && buffer[|line|] == '\0'
    ensures Holds(buffer, 0, UpToNul(line))
  {
    var r := UpToNul(line);
    assert buffer[0..|r|] == line[..|r|];
  }

  /** One turn of the loop of `getargs`. */
  method CutOne(cmd: array<char>, argv: array<int>, i: nat, from: nat, ghost words: seq<string>, ghost left: string)
    returns (more: bool, next: nat)
    requires i < argv.Length && i <= |words| && from <= cmd.Length
    requires Holds(cmd[..], from, left) && Split(left) == words[i..] && Placed(cmd[..], argv[..], words, i, from)
    modifies cmd, argv
    ensures more <==> i < |words|
    ensures !more ==> argv[i] == -1 && Placed(cmd[..], argv[..], words, i, cmd.Length)
    ensures more ==> next <= cmd.Length && Holds(cmd[..], next, AfterWord(left))
    ensures more ==> Split(AfterWord(left)) == words[i + 1..]
    ensures more ==> Placed(cmd[..], argv[..], words, i + 1, next)
  {
    SplitStep(left);
    ghost var before, ptrs := cmd[..], argv[..];
    var start, stop, p := Strtok(cmd, from, left);
    argv[i] := start;
    more, next := start != -1, stop;
    PlacedKept(before, cmd[..], from, p, ptrs, argv[..], words, i, if more then next else cmd.Length);
    if more {
      assert words[i] == words[i..][0] && words[i + 1..] == words[i..][1..];
      assert WordAt(cmd[..], argv[..][i], words[i], next);
    }
  }

  /** The loop of `getargs`: words until there are none or `max` have been found. */
  method Cut(cmd: array<char>, argv: array<int>, max: nat, ghost r: string) returns (i: nat)
    requires Holds(cmd[..], 0, r) && max <= argv.Length
    modifies cmd, argv
    ensures i == Min(|Split(r)|, max)
    ensures Placed(cmd[..], argv[..], Split(r), i, cmd.Length)
    ensures i < max ==> argv[i] == -1
  {
    i := 0;
    var next: nat, more := 0, true;
    ghost var left, words := r, Split(r);
    while i < max
      invariant 0 <= i <= max && i <= |words| && Split(left) == words[i..]
      invariant next <= cmd.Length && Holds(cmd[..], next, left)
      invariant Placed(cmd[..], argv[..], words, i, next)
    {
      more, next := CutOne(cmd, argv, i, next, words, left);
      if !more {
        return;
      }
      left := AfterWord(left);
      i := i + 1;
    }
    PlacedKept(cmd[..], cmd[..], next, -1, argv[..], argv[..], words, i, cmd.Length);
  }

  lemma PlacedKept(before: seq<char>, after: seq<char>, from: nat, p: int,
                   ptrs: seq<int>, ptrs1: seq<int>, words: seq<string>, k: nat, bound: int)
    requires k <= |words| && k <= |ptrs| == |ptrs1| && ptrs1[..k] == ptrs[..k]
    requires Placed(before, ptrs, words, k, from) && Cuts(before, after, from, p) && from <= bound
    ensures Placed(after, ptrs1, words, k, bound)
  {
    forall i | 0 <= i < k ensures WordAt(after, ptrs1[i], words[i], bound) {
      assert ptrs1[i] == ptrs1[..k][i] == ptrs[..k][i] == ptrs[i];
      WordKept(before, after, from, p, ptrs[i], words[i], bound);
    }
  }

  /** `getargs`: on success the words of the line are all in the buffer at once, each where its
      pointer says, whatever cuts were made after it. */
  method GetArgs(stdin: Stdin, cmd: array<char>, argv: array<int>, max: nat) returns (outcome: Outcome)
    requires cmd.Length == MAXLINE && max <= argv.Length
    modifies stdin, cmd, argv
    ensures (outcome, stdin.unread) == Result(old(stdin.unread), max)
    ensures outcome.Args? ==>
      && outcome.argc == |LineWords(old(stdin.unread))| < max && argv[outcome.argc] == -1
      && Placed(cmd[..], argv[..], LineWords(old(stdin.unread)), outcome.argc, cmd.Length)
  {
    ghost var s := stdin.unread;
    ghost var line := s[..Taken(s, MAXLINE - 1)];
    var ok := Fgets(stdin, cmd);
    if !ok {
      return EndOfInput;
    }
    LineHolds(cmd[..], line);
    HoldsAt(cmd[..], 0, UpToNul(line));
    assert cmd[0..] == cmd[..];
    if '\n' !in UpToNul(cmd[..]) {
      var hangs := SkipLine(stdin);
      return if hangs then Hangs else TooLong;
    }
    var i := Cut(cmd, argv, max, UpToNul(line));
    if i >= max {
      return TooMany;
    }
    outcome := Args(i);
  }

  // ---------- When it never returns ----------

  lemma {:induction false} TakenNewline(s: string)
    ensures var m := Taken(s, |s|);
            0 < m && s[m - 1] == '\n' <==> '\n' in s
  {
    if s != [] && s[0] != '\n' {
      TakenNewline(s[1..]);
      assert s == [s[0]] + s[1..];
    }
  }

  /** `getargs` never returns exactly if there is input, `strchr` sees no newline in what `fgets`
      took, and no newline follows that. */
  lemma HangsIff(s: string, max: nat)
    ensures var n := Taken(s, MAXLINE - 1);
            Result(s, max).0 == Hangs <==> s != [] && '\n' !in UpToNul(s[..n]) && '\n' !in s[n..]
  {
    TakenNewline(s[Taken(s, MAXLINE - 1)..]);
  }

  lemma TakenThroughNewline(s: string, room: nat)
    ensures var n := Taken(s, room);
            '\n' in s ==> '\n' in s[..n] || '\n' in s[n..]
  {
    assert s == s[..Taken(s, room)] + s[Taken(s, room)..];
  }

  /** Without NULs in the input: exactly if there is input left and no newline in it. */
  lemma HangsOnLastLine(s: string, max: nat)
    requires '\0' !in s
    ensures Result(s, max).0 == Hangs <==> s != [] && '\n' !in s
  {
    var n := Taken(s, MAXLINE - 1);
    HangsIff(s, max);
    assert '\0' !in s[..n];
    UpToNulIs(s[..n], s[..n]);
    TakenThroughNewline(s, MAXLINE - 1);
  }

  /** So a short last line without a newline is enough; and so is a whole line with a NUL in it. */
  lemma ShortLinesHang(max: nat)
    ensures Result("ls", max).0 == Hangs && Result("a\0b\n", max).0 == Hangs
  {
    HangsOnLastLine("ls", max);
    var s := "a\0b\n";
    assert s[1..] == "\0b\n" && s[1..][1..] == "b\n" && s[1..][1..][1..] == "\n";
    assert Taken("\n", 196) == 1 && Taken("b\n", 197) == 2 && Taken("\0b\n", 198) == 3;
    assert Taken(s, MAXLINE - 1) == 4 && s[..4] == s && s[4..] == [];
    UpToNulIs(s, "a");
    HangsIff(s, max);
  }
}
