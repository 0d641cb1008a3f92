/** What `command` does with a token that is out of place: it reports it, drops it, and goes on with
    the stage as it is. */
module MalformedLines {
  import opened CStrings
  import opened Lexer
  import opened LexerGrammar
  import opened Descriptors
  import opened Launching
  import opened CommandLine

  /** The token at the front of `s` is out of place, and `rest` is what is left when it has been
      dropped: `<` after a pipe; a second `>` or `>>`; `|` after one; a word after 49; a
      redirection that no word follows, which goes together with the token that does. */
  ghost predicate OutOfPlace(s: string, broken: bool, makepipe: bool, stage: Stage, rest: string) {
    var l := Next(s, broken);
    var f := Next(l.rest, broken);
    || (l.token == Lt && makepipe && rest == l.rest)
    || (l.token in {Gt, GtGt, Bar} && stage.redirection.dst == -1 && rest == l.rest)
    || (l.token == Word && |stage.args| == 49 && rest == l.rest)
    || (l.token == Lt && !makepipe && f.token != Word && rest == f.rest)
    || (l.token in {Gt, GtGt} && stage.redirection.dst == 1 && f.token != Word && rest == f.rest)
  }

  /** Dropping it is all that happens, whatever has been read of the stage and whatever follows. */
  lemma OutOfPlaceIsDropped(s: string, broken: bool, makepipe: bool, stage: Stage, rest: string)
    requires |stage.args| < 50 && OutOfPlace(s, broken, makepipe, stage, rest)
    ensures ReadStage(s, broken, makepipe, stage) == ReadStage(rest, broken, makepipe, stage)
  {
    NextConsumes(s, broken);
    var l := Next(s, broken);
    assert !EndsStage(l.token, stage);
    assert Absorbed(l, broken, makepipe, stage) == (stage, rest);
  }

  /** In characters: `<` after a pipe. */
  lemma LessAfterPipe(rest: string, broken: bool, stage: Stage)
    requires |stage.args| < 50
    ensures ReadStage(['<'] + rest, broken, true, stage) == ReadStage(rest, broken, true, stage)
  {
    var s := ['<'] + rest;
    assert s[1..] == rest && Next(s, broken) == Lexeme(Lt, [], rest);
    OutOfPlaceIsDropped(s, broken, true, stage, rest);
  }

  /** `|` after a redirected output. */
  lemma BarAfterOutput(rest: string, broken: bool, makepipe: bool, stage: Stage)
    requires |stage.args| < 50 && stage.redirection.dst == -1
    ensures ReadStage(['|'] + rest, broken, makepipe, stage) == ReadStage(rest, broken, makepipe, stage)
  {
    var s := ['|'] + rest;
    assert s[1..] == rest && Next(s, broken) == Lexeme(Bar, [], rest);
    OutOfPlaceIsDropped(s, broken, makepipe, stage, rest);
  }

  /** `<` and another `<`, `|`, `;`, `&` or newline: both go. */
  lemma LessWithoutWord(c: char, rest: string, broken: bool, stage: Stage)
    requires |stage.args| < 50 && c in "<|;&\n"
    ensures ReadStage(['<', c] + rest, broken, false, stage) == ReadStage(rest, broken, false, stage)
  {
    var s := ['<', c] + rest;
    assert s[1..] == [c] + rest && s[1..][1..] == rest;
    assert Next(s, broken) == Lexeme(Lt, [], [c] + rest);
    assert Next([c] + rest, broken).token != Word && Next([c] + rest, broken).rest == rest;
    OutOfPlaceIsDropped(s, broken, false, stage, rest);
  }

  // ---------- Anywhere in a line ----------

  /** Reading from `s` with `stage` read already comes to `s1` with `stage1` read. */
  predicate ComesTo(s: string, broken: bool, makepipe: bool, stage: Stage, s1: string, stage1: Stage)
    requires |stage.args| < MAXARG
    decreases |s|
  {
    NextConsumes(s, broken);
    var l := Next(s, broken);
    || (s == s1 && stage == stage1)
    || (!EndsStage(l.token, stage) &&
        var (next, rest) := Absorbed(l, broken, makepipe, stage);
        ComesTo(rest, broken, makepipe, next, s1, stage1))
  }

  lemma {:induction false} ComesToReads(s: string, broken: bool, makepipe: bool, stage: Stage,
                                        s1: string, stage1: Stage)
    requires |stage.args| < MAXARG && ComesTo(s, broken, makepipe, stage, s1, stage1)
    ensures |stage1.args| < MAXARG
    ensures ReadStage(s, broken, makepipe, stage) == ReadStage(s1, broken, makepipe, stage1)
    decreases |s|
  {
    if s != s1 || stage != stage1 {
      NextConsumes(s, broken);
      var (next, rest) := Absorbed(Next(s, broken), broken, makepipe, stage);
      ComesToReads(rest, broken, makepipe, next, s1, stage1);
    }
  }

  /** Two inputs whose stages begin alike and go on alike are the same line. */
  lemma SameLine(s: string, t: string, broken: bool, makepipe: bool)
    requires ReadStage(s, broken, makepipe, EMPTY_STAGE) == ReadStage(t, broken, makepipe, EMPTY_STAGE)
    ensures ParseFrom(s, broken, makepipe) == ParseFrom(t, broken, makepipe)
  {
  }

  /** A line with a token out of place is parsed as any line that comes to the same place without
      it. */
  lemma LineWithoutIt(s: string, t: string, s1: string, rest: string, broken: bool, makepipe: bool, stage: Stage)
    requires ComesTo(s, broken, makepipe, EMPTY_STAGE, s1, stage) && |stage.args| < MAXARG
    requires OutOfPlace(s1, broken, makepipe, stage, rest)
    requires ComesTo(t, broken, makepipe, EMPTY_STAGE, rest, stage)
    ensures ParseFrom(s, broken, makepipe) == ParseFrom(t, broken, makepipe)
  {
    ComesToReads(s, broken, makepipe, EMPTY_STAGE, s1, stage);
    OutOfPlaceIsDropped(s1, broken, makepipe, stage, rest);
    ComesToReads(t, broken, makepipe, EMPTY_STAGE, rest, stage);
    SameLine(s, t, broken, makepipe);
  }

  lemma FileIsArgument(b: string, f: string, rest: string, broken: bool)
    requires PlainWord(b, b) && '\0' !in b && |b| <= 500 && PlainWord(f, f) && '\0' !in f && |f| <= 500
    ensures ReadStage(b + (['<'] + (f + (['\n'] + rest))), broken, true, EMPTY_STAGE) ==
            Reading(OfWords([b, f]), Newline, rest)
  {
    WordIsTaken(b, ['<'] + (f + (['\n'] + rest)), broken, true, EMPTY_STAGE);
    assert [] + [b] == [b] && [b] + [f] == [b, f];
    LessAfterPipe(f + (['\n'] + rest), broken, OfWords([b]));
    WordIsTaken(f, ['\n'] + rest, broken, true, OfWords([b]));
    NewlineEnds(rest, broken, true, OfWords([b, f]));
  }

  /** For example the line `a|b<f`, or any other words: the file name is an argument. */
  lemma MisplacedFileIsArgument(a: string, b: string, f: string, rest: string, broken: bool)
    requires PlainWord(a, a) && '\0' !in a && |a| <= 500
    requires PlainWord(b, b) && '\0' !in b && |b| <= 500 && PlainWord(f, f) && '\0' !in f && |f| <= 500
    ensures ParseLine(a + (['|'] + (b + (['<'] + (f + (['\n'] + rest))))), broken) ==
            Line([OfWords([a]), OfWords([b, f])], Newline, rest)
  {
    var right := b + (['<'] + (f + (['\n'] + rest)));
    FileIsArgument(b, f, rest, broken);
    ParsedOne(right, broken, true, OfWords([b, f]), Newline, rest);
    WordIsTaken(a, ['|'] + right, broken, false, EMPTY_STAGE);
    assert [] + [a] == [a] && [OfWords([a])] + [OfWords([b, f])] == [OfWords([a]), OfWords([b, f])];
    BarEnds(right, broken, false, OfWords([a]));
    ParsedMore(a + (['|'] + right), broken, false, OfWords([a]), right);
  }
}
