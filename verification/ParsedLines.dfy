/** Printing undoes parsing: a line that `command` reads without a complaint is a well-formed
    pipeline in some legal writing. */
module ParsedLines {
  import opened CStrings
  import opened Lexer
  import opened LexerGrammar
  import opened Descriptors
  import opened Launching
  import opened CommandLine
  import opened PrintedLines

  predicate Fits(text: string) {
    '\0' !in text && |text| < MAXWORD
  }

  /** The lexeme `l`, which does not end the stage, is taken as it is: no message is written, and
      its text fits its buffer. */
  predicate Taken(l: Lexeme, broken: bool, makepipe: bool, stage: Stage) {
    match l.token
    case Word => |stage.args| < MAXARG - 1 && Fits(l.text)
    case Lt => !makepipe && TakesFile(l.rest, broken)
    case Gt => stage.redirection.dst == STDOUT && TakesFile(l.rest, broken)
    case GtGt => stage.redirection.dst == STDOUT && TakesFile(l.rest, broken)
    case _ => false
  }

  predicate TakesFile(s: string, broken: bool) {
    Next(s, broken).token == Word && Fits(Next(s, broken).text)
  }

  /** A stage is read to its end and everything in it is taken. */
  predicate StageTaken(s: string, broken: bool, makepipe: bool, stage: Stage)
    requires |stage.args| < MAXARG
    decreases |s|
  {
    NextConsumes(s, broken);
    var l := Next(s, broken);
    if EndsStage(l.token, stage) then l.token !in {EndOfFile, Error}
    else
      var (next, rest) := Absorbed(l, broken, makepipe, stage);
      Taken(l, broken, makepipe, stage) && StageTaken(rest, broken, makepipe, next)
  }

  /** A whole line is, from one of its stages on. */
  predicate LineTaken(s: string, broken: bool, makepipe: bool)
    decreases |s|
  {
    var r := ReadStage(s, broken, makepipe, EMPTY_STAGE);
    StageTaken(s, broken, makepipe, EMPTY_STAGE) && (r.token == Bar ==> LineTaken(r.rest, broken, true))
  }

  /** The token at the front of the input, as written. */
  lemma FirstItem(s: string, broken: bool) returns (item: Item)
    requires Next(s, broken).token !in {EndOfFile, Error}
    ensures var l := Next(s, broken);
      && Spelled(item) && (item.token, item.text) == (l.token, l.text)
      && s == item.lead + (item.body + l.rest) && Ends(item.token, item.body, l.rest)
      && (l.token != Word ==> l.text == [])
  {
    var l := Next(s, broken);
    var lead, body := NextSound(s, broken);
    item := Item(lead, body, l.token, l.text);
  }

  /** A token before others that are written legally. */
  lemma ItemBefore(s: string, broken: bool, items: seq<Item>, tail: string) returns (more: seq<Item>)
    requires Next(s, broken).token !in {EndOfFile, Error}
    requires Legal(items, tail) && Next(s, broken).rest == Written(items) + tail
    ensures var l := Next(s, broken);
            && Legal(more, tail) && s == Written(more) + tail
            && Tokens(more) == [(l.token, l.text)] + Tokens(items)
            && (l.token != Word ==> l.text == [])
  {
    var item := FirstItem(s, broken);
    more := [item] + items;
    assert more[1..] == items;
    Regroup(item.lead, item.body, Written(items), tail);
    TokensCons(item, items);
  }

  lemma TokensCons(item: Item, items: seq<Item>)
    ensures Tokens([item] + items) == [(item.token, item.text)] + Tokens(items)
  {
  }

  lemma StageTokensCons(part: Part, parts: seq<Part>, after: seq<(Token, string)>)
    ensures StageTokens([part] + parts) + after == PartTokens(part) + (StageTokens(parts) + after)
    ensures Inputs([part] + parts) == (if part.From? then [part.file] else []) + Inputs(parts)
    ensures Outputs([part] + parts) == (if part.Into? then [(part.file, part.append)] else []) + Outputs(parts)
  {
    assert ([part] + parts)[1..] == parts;
  }

  /** What is written of a stage from where `stage` has been read. */
  ghost predicate Writes(parts: seq<Part>, stage: Stage, makepipe: bool, end: Stage)
    requires |stage.args| < MAXARG
  {
    && (forall i | 0 <= i < |parts| :: FitsBuffer(parts[i]))
    && (makepipe ==> Inputs(parts) == [])
    && |Outputs(parts)| <= (if stage.redirection.dst == STDOUT then 1 else 0)
    && WithParts(stage, parts) == end
  }

  lemma WritesCons(part: Part, parts: seq<Part>, stage: Stage, makepipe: bool, end: Stage)
    requires |stage.args| < MAXARG && FitsBuffer(part) && Writes(parts, WithPart(stage, part), makepipe, end)
    requires (part.From? ==> !makepipe) && (part.Into? ==> stage.redirection.dst == STDOUT)
    ensures Writes([part] + parts, stage, makepipe, end)
  {
    StageTokensCons(part, parts, []);
    assert ([part] + parts)[1..] == parts;
    forall i | 0 <= i < |[part] + parts| ensures FitsBuffer(([part] + parts)[i]) {
      assert i > 0 ==> ([part] + parts)[i] == parts[i - 1];
    }
  }

  /** The part that the next lexeme begins. */
  function PartAt(l: Lexeme, broken: bool): Part {
    var file := Next(l.rest, broken).text;
    if l.token == Word then Arg(l.text) else if l.token == Lt then From(file) else Into(file, l.token == GtGt)
  }

  lemma AbsorbsPart(s: string, broken: bool, makepipe: bool, stage: Stage)
    requires |stage.args| < MAXARG - 1 || (|stage.args| < MAXARG && Next(s, broken).token != Word)
    requires Taken(Next(s, broken), broken, makepipe, stage)
    ensures var l := Next(s, broken);
            var part := PartAt(l, broken);
            && FitsBuffer(part) && PartTokens(part)[0].0 == l.token
            && (part.From? ==> !makepipe) && (part.Into? ==> stage.redirection.dst == STDOUT)
            && Absorbed(l, broken, makepipe, stage) ==
               (WithPart(stage, part), if part.Arg? then l.rest else Next(l.rest, broken).rest)
  {
    var l := Next(s, broken);
    var part := PartAt(l, broken);
    if part.Arg? {
      AbsorbsArg(l, broken, makepipe, stage, part);
    } else {
      AbsorbsFile(l, broken, makepipe, stage, part);
    }
  }

  /** A part, one or two tokens, before others that are written legally. */
  lemma PartBefore(s: string, broken: bool, makepipe: bool, stage: Stage, items: seq<Item>, tail: string)
    returns (more: seq<Item>)
    requires |stage.args| < MAXARG && Taken(Next(s, broken), broken, makepipe, stage)
    requires Legal(items, tail)
    requires var l := Next(s, broken);
             Written(items) + tail == if l.token == Word then l.rest else Next(l.rest, broken).rest
    ensures Legal(more, tail) && s == Written(more) + tail
    ensures Tokens(more) == PartTokens(PartAt(Next(s, broken), broken)) + Tokens(items)
  {
    var l := Next(s, broken);
    if l.token == Word {
      more := ItemBefore(s, broken, items, tail);
    } else {
      more := ItemBefore(l.rest, broken, items, tail);
      more := ItemBefore(s, broken, more, tail);
      var file := Next(l.rest, broken).text;
      assert [(l.token, "")] + ([(Word, file)] + Tokens(items)) == [(l.token, ""), (Word, file)] + Tokens(items);
    }
  }

  /** A stage that is taken was written as its parts and the token that ended it, before whatever
      was written after it. */
  lemma {:induction false} StageWritten(s: string, broken: bool, makepipe: bool, stage: Stage,
                                        after: seq<Item>, tail: string)
    returns (parts: seq<Part>, items: seq<Item>)
    requires |stage.args| < MAXARG && StageTaken(s, broken, makepipe, stage)
    requires Legal(after, tail) && ReadStage(s, broken, makepipe, stage).rest == Written(after) + tail
    ensures var r := ReadStage(s, broken, makepipe, stage);
            && Writes(parts, stage, makepipe, r.stage)
            && Tokens(items) == StageTokens(parts) + ([(r.token, "")] + Tokens(after))
    ensures Legal(items, tail) && s == Written(items) + tail
    decreases |s|
  {
    NextConsumes(s, broken);
    var l := Next(s, broken);
    if EndsStage(l.token, stage) {
      parts := [];
      items := ItemBefore(s, broken, after, tail);
      assert [] + Tokens(items) == Tokens(items);
    } else {
      AbsorbsPart(s, broken, makepipe, stage);
      var part := PartAt(l, broken);
      var (next, rest) := Absorbed(l, broken, makepipe, stage);
      var ps, more := StageWritten(rest, broken, makepipe, next, after, tail);
      parts := [part] + ps;
      items := PartBefore(s, broken, makepipe, stage, more, tail);
      WritesCons(part, ps, stage, makepipe, ReadStage(s, broken, makepipe, stage).stage);
      StageTokensCons(part, ps, [(ReadStage(s, broken, makepipe, stage).token, "")] + Tokens(after));
    }
  }

  /** A stage that was written is well formed. */
  lemma WritesWellFormed(parts: seq<Part>, makepipe: bool, r: Reading)
    requires Writes(parts, EMPTY_STAGE, makepipe, r.stage) && EndsStage(r.token, r.stage)
    ensures WellFormedStage(parts, !makepipe, r.token != Bar) && StageOf(parts) == r.stage
  {
    PartsMakeStage(parts);
    OutputOf(EMPTY_STAGE, parts);
  }

  lemma WellFormedCons(parts: seq<Part>, stages: seq<seq<Part>>, makepipe: bool)
    requires WellFormedStage(parts, !makepipe, stages == []) && WellFormed(stages, true)
    ensures WellFormed([parts] + stages, makepipe)
  {
    forall i | 0 <= i < |[parts] + stages|
      ensures WellFormedStage(([parts] + stages)[i], !makepipe && i == 0, i == |[parts] + stages| - 1)
    {
      assert i > 0 ==> WellFormedStage(stages[i - 1], false && i - 1 == 0, i - 1 == |stages| - 1);
    }
  }

  lemma StagesCons(parts: seq<Part>, stages: seq<seq<Part>>)
    ensures StagesOf([parts] + stages) == [StageOf(parts)] + StagesOf(stages)
  {
    assert ([parts] + stages)[1..] == stages;
  }

  /** What a line was written as. */
  ghost predicate LineWrittenAs(s: string, stages: seq<seq<Part>>, items: seq<Item>, makepipe: bool, p: Parse)
    requires p.Line?
  {
    && stages != [] && WellFormed(stages, makepipe) && StagesOf(stages) == p.stages
    && Tokens(items) == LineTokens(stages, p.term)
    && Legal(items, p.rest) && s == Written(items) + p.rest
  }

  /** Printing undoes parsing: every line that is read without a complaint is some legal writing of
      a well-formed pipeline, whose stages and terminator are those that were read. */
  lemma {:induction false} PrintOfParse(s: string, broken: bool, makepipe: bool)
    returns (stages: seq<seq<Part>>, items: seq<Item>)
    requires ParseFrom(s, broken, makepipe).Line? && LineTaken(s, broken, makepipe)
    ensures LineWrittenAs(s, stages, items, makepipe, ParseFrom(s, broken, makepipe))
    decreases |s|
  {
    var r, p := ReadStage(s, broken, makepipe, EMPTY_STAGE), ParseFrom(s, broken, makepipe);
    var after;
    if r.token == Bar {
      stages, after := PrintOfParse(r.rest, broken, true);
    } else {
      stages, after := [], [];
      assert Written([]) + r.rest == r.rest;
    }
    var parts;
    parts, items := StageWritten(s, broken, makepipe, EMPTY_STAGE, after, p.rest);
    WritesWellFormed(parts, makepipe, r);
    WellFormedCons(parts, stages, makepipe);
    StagesCons(parts, stages);
    LineTokensCons(parts, stages, p.term);
    stages := [parts] + stages;
  }

  lemma LineTokensCons(parts: seq<Part>, stages: seq<seq<Part>>, term: Token)
    ensures LineTokens([parts] + stages, term) ==
            StageTokens(parts) + if stages == [] then [(term, "")] else [(Bar, "")] + LineTokens(stages, term)
  {
    assert ([parts] + stages)[1..] == stages;
  }
}
