/** What the loop of `command` in communication/shell.c reads: a pipeline's stages and the
    token that ends the line, or nothing if the input ends first.  Nothing is started before
    the last stage has been read, so reading is a function of the input alone. */
module CommandLine {
  import opened CStrings
  import opened Lexer
  import opened LexerGrammar
  import opened Descriptors
  import opened Launching

  const MAXARG := 50
  const MAXFNAME := 500
  const MAXWORD := 500

  const NO_REDIRECTION := Redirection(STDIN, "", STDOUT, "", false)
  const EMPTY_STAGE := Stage([], NO_REDIRECTION)

  /** A line read to its end, or the token that stopped the reading. */
  datatype Parse = Line(stages: seq<Stage>, term: Token, rest: string) | Stopped(token: Token)

  /** The stage after the lexeme `l`, which does not end the stage, and the input left.  What
      is out of place is reported and skipped: words beyond the argument limit, `<` after a
      pipe, a second `>`, a redirection without a word after it, and `|` after `>`. */
  function Absorbed(l: Lexeme, broken: bool, makepipe: bool, stage: Stage): (next: (Stage, string))
    requires |stage.args| < MAXARG
    ensures |next.0.args| < MAXARG && |next.1| <= |l.rest|
  {
    var r := stage.redirection;
    if l.token == Word then
      if |stage.args| >= MAXARG - 1 then (stage, l.rest)
      else (stage.(args := stage.args + [Stored(l.text, MAXWORD)]), l.rest)
    else if l.token == Lt && !makepipe then
      var file := Next(l.rest, broken);
      if file.token != Word then (stage, file.rest)
      else (stage.(redirection := r.(src := -1, srcfile := Stored(file.text, MAXFNAME))), file.rest)
    else if (l.token == Gt || l.token == GtGt) && r.dst == STDOUT then
      var file := Next(l.rest, broken);
      if file.token != Word then (stage, file.rest)
      else
        var r1 := r.(dst := -1, dstfile := Stored(file.text, MAXFNAME), append := l.token == GtGt);
        (stage.(redirection := r1), file.rest)
    else
      (stage, l.rest)
  }

  /** A stage, the token that ended it, and the input left. */
  datatype Reading = Reading(stage: Stage, token: Token, rest: string)

  /** Whether a token ends the stage: `|` does unless the output is already a file. */
  predicate EndsStage(token: Token, stage: Stage) {
    token in {Amp, Semi, Newline, EndOfFile, Error} || (token == Bar && stage.redirection.dst == STDOUT)
  }

  /** Reads on from a stage of which `stage` has been read, to the token that ends it. */
  function ReadStage(s: string, broken: bool, makepipe: bool, stage: Stage): (r: Reading)
    requires |stage.args| < MAXARG
    ensures |r.stage.args| < MAXARG && EndsStage(r.token, r.stage)
    ensures if r.token in {EndOfFile, Error} then r.rest == [] else |r.rest| < |s|
    decreases |s|
  {
    NextConsumes(s, broken);
    var l := Next(s, broken);
    if EndsStage(l.token, stage) then Reading(stage, l.token, l.rest)
    else
      var (next, rest) := Absorbed(l, broken, makepipe, stage);
      ReadStage(rest, broken, makepipe, next)
  }

  /** Reads a pipeline from one of its stages on; `makepipe` says that a `|` came before it. */
  function ParseFrom(s: string, broken: bool, makepipe: bool): (p: Parse)
    ensures p.Line? ==> |p.rest| < |s| && p.stages != [] && p.term in {Amp, Semi, Newline}
    ensures p.Stopped? ==> p.token in {EndOfFile, Error}
    decreases |s|, 0
  {
    var r := ReadStage(s, broken, makepipe, EMPTY_STAGE);
    if r.token in {EndOfFile, Error} then Stopped(r.token)
    else
      match ParseAfter(r.token, r.rest, broken)
      case Stopped(token) => Stopped(token)
      case Line(stages, term, rest) => Line([r.stage] + stages, term, rest)
  }

  /** The stages after the token that ended a stage: none, unless it was `|`. */
  function ParseAfter(token: Token, s: string, broken: bool): (p: Parse)
    requires token in {Bar, Amp, Semi, Newline}
    ensures p.Line? ==> |p.rest| <= |s| && p.term in {Amp, Semi, Newline} && (p.stages == [] <==> token != Bar)
    ensures p.Stopped? ==> p.token in {EndOfFile, Error}
    decreases |s|, 1
  {
    if token == Bar then ParseFrom(s, broken, true) else Line([], token, s)
  }

  /** One whole line. */
  function ParseLine(s: string, broken: bool): Parse {
    ParseFrom(s, broken, false)
  }

  /** A plain word that is in place is the next argument, as far as the 500 characters of the
      buffer go. */
  lemma WordIsTaken(word: string, rest: string, broken: bool, makepipe: bool, stage: Stage)
    requires PlainWord(word, word) && '\0' !in word && rest != [] && IsDelimiter(rest[0])
    requires |stage.args| < 49
    ensures var arg := if |word| <= 500 then word else word[..500];
            ReadStage(word + rest, broken, makepipe, stage) ==
            ReadStage(rest, broken, makepipe, stage.(args := stage.args + [arg]))
  {
    PlainReads(word, rest, broken);
    StoredCut(word, MAXWORD);
    NextConsumes(word + rest, broken);
  }

  /** So is the name of an input file. */
  lemma FileIsTaken(file: string, rest: string, broken: bool, stage: Stage)
    requires PlainWord(file, file) && '\0' !in file && rest != [] && IsDelimiter(rest[0])
    requires |stage.args| < 50
    ensures var r := stage.redirection.(src := -1, srcfile := if |file| <= 500 then file else file[..500]);
      ReadStage(['<'] + (file + rest), broken, false, stage) == ReadStage(rest, broken, false, stage.(redirection := r))
  {
    var s := ['<'] + (file + rest);
    assert s[1..] == file + rest && Next(s, broken) == Lexeme(Lt, [], file + rest);
    PlainReads(file, rest, broken);
    StoredCut(file, MAXFNAME);
    NextConsumes(s, broken);
  }

  /** And of an output file; two `>` append to it. */
  lemma OutputIsTaken(append: bool, file: string, rest: string, broken: bool, makepipe: bool, stage: Stage)
    requires PlainWord(file, file) && '\0' !in file && rest != [] && IsDelimiter(rest[0])
    requires |stage.args| < 50 && stage.redirection.dst == 1 && file[0] != '>'
    ensures var name := if |file| <= 500 then file else file[..500];
      var r := stage.redirection.(dst := -1, dstfile := name, append := append);
      ReadStage((if append then ">>" else ">") + (file + rest), broken, makepipe, stage) ==
      ReadStage(rest, broken, makepipe, stage.(redirection := r))
  {
    OperatorReads(if append then GtGt else Gt, [], if append then ">>" else ">", file + rest, broken);
    PlainReads(file, rest, broken);
    StoredCut(file, MAXFNAME);
    NextConsumes((if append then ">>" else ">") + (file + rest), broken);
  }

  lemma NewlineEnds(rest: string, broken: bool, makepipe: bool, stage: Stage)
    requires |stage.args| < 50
    ensures ReadStage(['\n'] + rest, broken, makepipe, stage) == Reading(stage, Newline, rest)
  {
    assert (['\n'] + rest)[1..] == rest && Next(['\n'] + rest, broken) == Lexeme(Newline, [], rest);
  }

  lemma BarEnds(rest: string, broken: bool, makepipe: bool, stage: Stage)
    requires |stage.args| < 50 && stage.redirection.dst == STDOUT
    ensures ReadStage(['|'] + rest, broken, makepipe, stage) == Reading(stage, Bar, rest)
  {
    assert (['|'] + rest)[1..] == rest && Next(['|'] + rest, broken) == Lexeme(Bar, [], rest);
  }

  function OfWords(words: seq<string>): Stage {
    Stage(words, Redirection(0, "", 1, "", false))
  }

  /** A line of one stage, and a line of more. */
  lemma ParsedOne(s: string, broken: bool, makepipe: bool, stage: Stage, term: Token, rest: string)
    requires ReadStage(s, broken, makepipe, EMPTY_STAGE) == Reading(stage, term, rest) && term in {Amp, Semi, Newline}
    ensures ParseFrom(s, broken, makepipe) == Line([stage], term, rest)
  {
  }

  lemma ParsedMore(s: string, broken: bool, makepipe: bool, stage: Stage, rest: string)
    requires ReadStage(s, broken, makepipe, EMPTY_STAGE) == Reading(stage, Bar, rest)
    ensures var p := ParseFrom(rest, broken, true);
            p.Line? ==> ParseFrom(s, broken, makepipe) == Line([stage] + p.stages, p.term, p.rest)
  {
  }

  predicate WithinLimits(stages: seq<Stage>) {
    forall i | 0 <= i < |stages| :: |stages[i].args| <= 49
  }

  lemma WellShapedCons(stage: Stage, stages: seq<Stage>, makepipe: bool)
    requires WellShaped(stages, true) && stages != []
    requires WellShapedStage(stage.redirection, makepipe, true)
    ensures WellShaped([stage] + stages, makepipe)
  {
    forall i | 0 <= i < |[stage] + stages|
      ensures WellShapedStage(([stage] + stages)[i].redirection, makepipe || 0 < i, i < |[stage] + stages| - 1)
    {
      assert i > 0 ==> WellShapedStage(stages[i - 1].redirection, true, i - 1 < |stages| - 1);
    }
  }

  lemma {:induction false} ReadWellShaped(s: string, broken: bool, makepipe: bool, stage: Stage)
    requires |stage.args| < MAXARG && WellShapedStage(stage.redirection, makepipe, false)
    ensures WellShapedStage(ReadStage(s, broken, makepipe, stage).stage.redirection, makepipe, false)
    decreases |s|
  {
    NextConsumes(s, broken);
    var l := Next(s, broken);
    if !EndsStage(l.token, stage) {
      var (next, rest) := Absorbed(l, broken, makepipe, stage);
      ReadWellShaped(rest, broken, makepipe, next);
    }
  }

  /** However malformed the input, a line that is read to its end has files only where the
      launching can honour them, and no stage has more than 49 arguments. */
  lemma {:induction false} ParsedWellShaped(s: string, broken: bool, makepipe: bool)
    ensures var p := ParseFrom(s, broken, makepipe);
            p.Line? ==> WellShaped(p.stages, makepipe) && WithinLimits(p.stages)
    decreases |s|
  {
    ReadWellShaped(s, broken, makepipe, EMPTY_STAGE);
    var r := ReadStage(s, broken, makepipe, EMPTY_STAGE);
    if r.token == Bar {
      ParsedWellShaped(r.rest, broken, true);
      var p := ParseFrom(r.rest, broken, true);
      if p.Line? {
        WellShapedCons(r.stage, p.stages, makepipe);
      }
    }
  }
}
