/** Parsing undoes printing: a pipeline written down in any legal way is read back, and run,
    as it was meant. */
module PrintedLines {
  import opened CStrings
  import opened Lexer
  import opened LexerGrammar
  import opened Descriptors
  import opened Launching
  import opened Wiring
  import opened CommandLine

  // ---------- Written tokens ----------

  /** A token as written: the blanks before it, its spelling, and what it stands for. */
  datatype Item = Item(lead: string, body: string, token: Token, text: string)

  function Written(items: seq<Item>): string {
    if items == [] then [] else items[0].lead + items[0].body + Written(items[1..])
  }

  function Tokens(items: seq<Item>): seq<(Token, string)> {
    seq(|items|, i requires 0 <= i < |items| => (items[i].token, items[i].text))
  }

  predicate Spelled(item: Item) {
    Blank(item.lead) && Spells(item.token, item.text, item.body)
  }

  predicate Plain(item: Item) {
    item.token == Word && item.body != [] && item.body[0] != '"'
  }

  /** A separator stands where two tokens would run together: between a plain word and another
      word, and between `>` and another `>`. */
  predicate Separated(a: Item, b: Item) {
    && (Plain(a) && b.token == Word ==> b.lead != [])
    && (a.token == Gt && b.token in {Gt, GtGt} ==> b.lead != [])
  }

  /** Legal writing before `tail`: every token is spelled right and ends where its spelling ends. */
  predicate Legal(items: seq<Item>, tail: string) {
    items == [] ||
    (Spelled(items[0]) && Ends(items[0].token, items[0].body, Written(items[1..]) + tail) && Legal(items[1..], tail))
  }

  /** The same place by place: right spellings, separators where two tokens would run together, and
      after the last token nothing that would go on with it. */
  predicate SpelledApart(items: seq<Item>, tail: string) {
    && (forall i | 0 <= i < |items| :: Spelled(items[i]))
    && (forall i | 0 < i < |items| :: Separated(items[i - 1], items[i]))
    && (items != [] ==> var last := items[|items| - 1]; Ends(last.token, last.body, tail))
  }

  /** The first `n` tokens that repeated calls of the lexer return. */
  function Lexed(s: string, broken: bool, n: nat): (seq<(Token, string)>, string)
    decreases n
  {
    if n == 0 then ([], s)
    else
      var l := Next(s, broken);
      var (tokens, rest) := Lexed(l.rest, broken, n - 1);
      ([(l.token, l.text)] + tokens, rest)
  }

  lemma ItemStart(item: Item, rest: string)
    requires Spelled(item)
    ensures var s := item.lead + item.body + rest;
            && s != []
            && (item.lead != [] || item.token != Word ==> IsDelimiter(s[0]))
            && (item.lead == [] && item.token == Word ==> (s[0] == '"' || !IsDelimiter(s[0])))
            && (s[0] == '>' <==> item.lead == [] && item.token in {Gt, GtGt})
  {
    var s := item.lead + item.body + rest;
    if item.lead != [] {
      assert s[0] == item.lead[0] && IsBlank(item.lead[0]);
    } else {
      assert s[0] == item.body[0];
    }
  }

  /** A token ends before the next one exactly if they are separated where they must be. */
  lemma EndsIffSeparated(a: Item, b: Item, rest: string)
    requires Spelled(a) && Spelled(b)
    ensures Ends(a.token, a.body, b.lead + b.body + rest) <==> Separated(a, b)
  {
    ItemStart(b, rest);
  }

  lemma {:induction false} LegalIff(items: seq<Item>, tail: string)
    ensures Legal(items, tail) <==> SpelledApart(items, tail)
  {
    if items != [] {
      LegalIff(items[1..], tail);
      if 1 < |items| {
        var after := Written(items[1..][1..]) + tail;
        assert Written(items[1..]) + tail == items[1].lead + items[1].body + after;
        if Spelled(items[0]) && Spelled(items[1]) {
          EndsIffSeparated(items[0], items[1], after);
        }
        SpelledApartCons(items, tail);
      } else {
        assert Written(items[1..]) + tail == tail;
      }
    }
  }

  lemma SpelledApartCons(items: seq<Item>, tail: string)
    requires 1 < |items|
    ensures SpelledApart(items, tail) <==>
            Spelled(items[0]) && Separated(items[0], items[1]) && SpelledApart(items[1..], tail)
  {
    var more := items[1..];
    if SpelledApart(items, tail) {
      assert Separated(items[1 - 1], items[1]);
      forall i | 0 < i < |more| ensures Separated(more[i - 1], more[i]) {
        assert Separated(items[i + 1 - 1], items[i + 1]);
      }
    }
    if Spelled(items[0]) && Separated(items[0], items[1]) && SpelledApart(more, tail) {
      forall i | 0 < i < |items| ensures Separated(items[i - 1], items[i]) {
        assert i > 1 ==> Separated(more[i - 1 - 1], more[i - 1]);
      }
      forall i | 0 <= i < |items| ensures Spelled(items[i]) {
        assert i > 0 ==> Spelled(more[i - 1]);
      }
    }
  }

  lemma NextItem(items: seq<Item>, tail: string, broken: bool)
    requires items != [] && Legal(items, tail)
    ensures Next(Written(items) + tail, broken) == Lexeme(items[0].token, items[0].text, Written(items[1..]) + tail)
  {
    var item, rest := items[0], Written(items[1..]) + tail;
    Regroup(item.lead, item.body, Written(items[1..]), tail);
    NextReads(Written(items) + tail, item.lead, item.body, Lexeme(item.token, item.text, rest), broken);
  }

  /** Lexer round trip: whatever legal spelling and spacing a token list is given, the lexer
      returns the list and leaves what follows. */
  lemma LexerRoundTrip(items: seq<Item>, tail: string, broken: bool)
    requires SpelledApart(items, tail)
    ensures Lexed(Written(items) + tail, broken, |items|) == (Tokens(items), tail)
  {
    LegalIff(items, tail);
    LexedLegal(items, tail, broken);
  }

  lemma {:induction false} LexedLegal(items: seq<Item>, tail: string, broken: bool)
    requires Legal(items, tail)
    ensures Lexed(Written(items) + tail, broken, |items|) == (Tokens(items), tail)
  {
    if items == [] {
      assert Written(items) + tail == tail && Tokens(items) == [];
    } else {
      NextItem(items, tail, broken);
      LexedLegal(items[1..], tail, broken);
      TokensFirst(items);
    }
  }

  lemma TokensFirst(items: seq<Item>)
    requires items != []
    ensures Tokens(items) == [(items[0].token, items[0].text)] + Tokens(items[1..])
  {
  }

  // ---------- Reading tokens from the input ----------

  /** A token as it is shown: the word that is in the buffer, after a word. */
  function ShownToken(l: Lexeme): (Token, string) {
    (l.token, if l.token == Word then Stored(l.text, MAXWORD) else "")
  }

  /** What repeated calls show, to the end of the input and with it. */
  function AllShown(s: string, broken: bool): seq<(Token, string)>
    decreases |s|
  {
    NextConsumes(s, broken);
    var l := Next(s, broken);
    [ShownToken(l)] + if l.token in {EndOfFile, Error} then [] else AllShown(l.rest, broken)
  }

  /** A token and what is added to the tokens before it. */
  lemma ShownNext(shown: seq<(Token, string)>, s: string, broken: bool)
    ensures var l := Next(s, broken);
      && (l.token !in {EndOfFile, Error} ==> |l.rest| < |s|)
      && (shown + [ShownToken(l)]) + (if l.token in {EndOfFile, Error} then [] else AllShown(l.rest, broken)) ==
         shown + AllShown(s, broken)
  {
    NextConsumes(s, broken);
    var l := Next(s, broken);
    Appended(shown, ShownToken(l), if l.token in {EndOfFile, Error} then [] else AllShown(l.rest, broken));
  }

  lemma Appended<T>(a: seq<T>, x: T, b: seq<T>)
    ensures (a + [x]) + b == a + ([x] + b)
  {
  }

  method ShowToken(stdin: Stdin, word: array<char>) returns (token: Token, text: string)
    requires word.Length == MAXWORD
    modifies stdin, word
    ensures var l := Next(old(stdin.unread), stdin.broken);
            (token, text) == ShownToken(l) && token == l.token && stdin.unread == l.rest
  {
    StoredReadsBack(word[..], Next(stdin.unread, stdin.broken).text);
    token := GetToken(stdin, word);
    text := if token == Word then UpToNul(word[..]) else "";
  }

  /** `test_gettoken`. */
  method TestGetToken(stdin: Stdin) returns (shown: seq<(Token, string)>)
    modifies stdin
    ensures shown == AllShown(old(stdin.unread), stdin.broken) && stdin.unread == []
  {
    var word := new char[MAXWORD];
    shown := [];
    ghost var goal := AllShown(stdin.unread, stdin.broken);
    while true
      invariant fresh(word) && word.Length == MAXWORD
      invariant shown + AllShown(stdin.unread, stdin.broken) == goal
      decreases |stdin.unread|
    {
      ShownNext(shown, stdin.unread, stdin.broken);
      var token, text := ShowToken(stdin, word);
      shown := shown + [(token, text)];
      if token == EndOfFile || token == Error {
        return;
      }
    }
  }

  lemma ItemIsShown(items: seq<Item>, tail: string, broken: bool)
    requires items != [] && Legal(items, tail) && '\0' !in items[0].text && |items[0].text| <= MAXWORD
    ensures AllShown(Written(items) + tail, broken) ==
            [(items[0].token, items[0].text)] + AllShown(Written(items[1..]) + tail, broken)
  {
    NextItem(items, tail, broken);
    StoredWhole(items[0].text, MAXWORD);
    ShownFirst(Written(items) + tail, broken);
  }

  lemma ShownFirst(s: string, broken: bool)
    ensures var l := Next(s, broken);
            l.token !in {EndOfFile, Error} ==> AllShown(s, broken) == [ShownToken(l)] + AllShown(l.rest, broken)
  {
  }

  lemma Prepended<T>(x: T, a: seq<T>, b: seq<T>)
    ensures [x] + (a + b) == ([x] + a) + b
  {
  }

  /** The tokens of a list that is written legally are shown first, with their whole texts where
      they fit the buffer. */
  lemma {:induction false} WrittenIsShown(items: seq<Item>, tail: string, broken: bool)
    requires Legal(items, tail)
    requires forall i | 0 <= i < |items| :: '\0' !in items[i].text && |items[i].text| <= MAXWORD
    ensures AllShown(Written(items) + tail, broken) == Tokens(items) + AllShown(tail, broken)
  {
    if items == [] {
      assert Written(items) + tail == tail && Tokens(items) == [];
    } else {
      var x, end := (items[0].token, items[0].text), AllShown(tail, broken);
      WrittenIsShown(items[1..], tail, broken);
      ItemIsShown(items, tail, broken);
      Prepended(x, Tokens(items[1..]), end);
      assert Tokens(items) == [x] + Tokens(items[1..]) by {
        TokensFirst(items);
      }
    }
  }

  /** The round trip of the running code: of an input that is a legal writing of a token list, the
      calls of `gettoken` return exactly that list, each word whole in the buffer, and then report
      the end. */
  method TokensRoundTrip(stdin: Stdin, ghost items: seq<Item>) returns (shown: seq<(Token, string)>)
    requires stdin.unread == Written(items) && SpelledApart(items, [])
    requires forall i | 0 <= i < |items| :: '\0' !in items[i].text && |items[i].text| <= MAXWORD
    modifies stdin
    ensures shown == Tokens(items) + [(if stdin.broken then EndOfFile else Error, "")]
  {
    LegalIff(items, []);
    WrittenIsShown(items, [], stdin.broken);
    assert Written(items) + [] == Written(items);
    assert AllShown([], stdin.broken) == [(if stdin.broken then EndOfFile else Error, "")];
    shown := TestGetToken(stdin);
  }

  // ---------- Written pipelines ----------

  /** What a stage consists of, in any order. */
  datatype Part = Arg(word: string) | From(file: string) | Into(file: string, append: bool)

  function PartTokens(part: Part): seq<(Token, string)> {
    match part
    case Arg(word) => [(Word, word)]
    case From(file) => [(Lt, ""), (Word, file)]
    case Into(file, append) => [(if append then GtGt else Gt, ""), (Word, file)]
  }

  function StageTokens(parts: seq<Part>): seq<(Token, string)> {
    if parts == [] then [] else PartTokens(parts[0]) + StageTokens(parts[1..])
  }

  /** The tokens of a pipeline and the token that ends its line. */
  function LineTokens(stages: seq<seq<Part>>, term: Token): seq<(Token, string)>
    requires stages != []
  {
    StageTokens(stages[0]) + if |stages| == 1 then [(term, "")] else [(Bar, "")] + LineTokens(stages[1..], term)
  }

  // ---------- What a written stage means ----------

  function Words(parts: seq<Part>): seq<string> {
    if parts == [] then [] else (if parts[0].Arg? then [parts[0].word] else []) + Words(parts[1..])
  }

  function Inputs(parts: seq<Part>): seq<string> {
    if parts == [] then [] else (if parts[0].From? then [parts[0].file] else []) + Inputs(parts[1..])
  }

  function Outputs(parts: seq<Part>): seq<(string, bool)> {
    if parts == [] then []
    else (if parts[0].Into? then [(parts[0].file, parts[0].append)] else []) + Outputs(parts[1..])
  }

  /** As many words as a stage can hold. */
  function Cut(words: seq<string>): seq<string> {
    words[..Min(|words|, 49)]
  }

  /** The first 49 words are the arguments; the last input file counts; there is one output. */
  function StageOf(parts: seq<Part>): Stage {
    var inputs, outputs := Inputs(parts), Outputs(parts);
    Stage(Cut(Words(parts)),
          Redirection(if inputs == [] then STDIN else -1, if inputs == [] then "" else inputs[|inputs| - 1],
                      if outputs == [] then STDOUT else -1, if outputs == [] then "" else outputs[0].0,
                      outputs != [] && outputs[0].1))
  }

  function StagesOf(stages: seq<seq<Part>>): seq<Stage> {
    Mapped(StageOf, stages)
  }

  function Mapped<A, B>(f: A -> B, s: seq<A>): (r: seq<B>)
    ensures |r| == |s|
  {
    if s == [] then [] else [f(s[0])] + Mapped(f, s[1..])
  }

  lemma {:induction false} MappedAt<A, B>(f: A -> B, s: seq<A>, i: nat)
    requires i < |s|
    ensures Mapped(f, s)[i] == f(s[i])
  {
    if i > 0 {
      MappedAt(f, s[1..], i - 1);
    }
  }

  predicate FitsBuffer(part: Part) {
    var s := if part.Arg? then part.word else part.file;
    '\0' !in s && |s| < 500
  }

  predicate WellFormedStage(parts: seq<Part>, first: bool, last: bool) {
    && (forall i | 0 <= i < |parts| :: FitsBuffer(parts[i]))
    && (!first ==> Inputs(parts) == [])
    && |Outputs(parts)| <= if last then 1 else 0
  }

  /** `<` on the first stage only, one `>` or `>>` at most and on the last stage only. */
  predicate WellFormed(stages: seq<seq<Part>>, afterPipe: bool) {
    forall i | 0 <= i < |stages| :: WellFormedStage(stages[i], !afterPipe && i == 0, i == |stages| - 1)
  }

  lemma {:induction false} LegalFrom(items: seq<Item>, tail: string, n: nat)
    requires n <= |items| && Legal(items, tail)
    ensures Legal(items[n..], tail)
  {
    if n == 0 {
      assert items[0..] == items;
    } else {
      LegalFrom(items[1..], tail, n - 1);
      assert items[1..][n - 1..] == items[n..];
    }
  }

  /** A stage with one part more, and with several, one after the other. */
  function WithPart(stage: Stage, part: Part): (r: Stage)
    ensures |stage.args| < MAXARG ==> |r.args| < MAXARG
  {
    var r := stage.redirection;
    match part
    case Arg(word) => stage.(args := Cut(stage.args + [word]))
    case From(file) => stage.(redirection := r.(src := -1, srcfile := file))
    case Into(file, append) => stage.(redirection := r.(dst := -1, dstfile := file, append := append))
  }

  function WithParts(stage: Stage, parts: seq<Part>): (r: Stage)
    ensures |stage.args| < MAXARG ==> |r.args| < MAXARG
    decreases |parts|
  {
    if parts == [] then stage else WithParts(WithPart(stage, parts[0]), parts[1..])
  }

  lemma {:induction false} ArgsOf(stage: Stage, parts: seq<Part>)
    requires |stage.args| < MAXARG
    ensures WithParts(stage, parts).args == Cut(stage.args + Words(parts))
    decreases |parts|
  {
    if parts == [] {
      assert stage.args + [] == stage.args;
    } else {
      ArgsOf(WithPart(stage, parts[0]), parts[1..]);
      if parts[0].Arg? {
        CutOnce(stage.args + [parts[0].word], Words(parts[1..]));
        assert stage.args + [parts[0].word] + Words(parts[1..]) == stage.args + Words(parts);
      }
    }
  }

  lemma {:induction false} InputOf(stage: Stage, parts: seq<Part>)
    ensures var r, inputs := WithParts(stage, parts).redirection, Inputs(parts);
            if inputs == [] then r.src == stage.redirection.src && r.srcfile == stage.redirection.srcfile
            else r.src == -1 && r.srcfile == inputs[|inputs| - 1]
    decreases |parts|
  {
    if parts != [] {
      InputOf(WithPart(stage, parts[0]), parts[1..]);
    }
  }

  lemma {:induction false} OutputOf(stage: Stage, parts: seq<Part>)
    requires |Outputs(parts)| <= 1
    ensures var r, outputs := WithParts(stage, parts).redirection, Outputs(parts);
            if outputs == [] then
              var r0 := stage.redirection;
              r.dst == r0.dst && r.dstfile == r0.dstfile && r.append == r0.append
            else r.dst == -1 && (r.dstfile, r.append) == outputs[0]
    decreases |parts|
  {
    if parts != [] {
      OutputOf(WithPart(stage, parts[0]), parts[1..]);
    }
  }

  lemma PartsMakeStage(parts: seq<Part>)
    requires |Outputs(parts)| <= 1
    ensures WithParts(EMPTY_STAGE, parts) == StageOf(parts)
  {
    PartsMakeArgs(parts);
    PartsMakeRedirection(parts);
  }

  lemma PartsMakeArgs(parts: seq<Part>)
    ensures WithParts(EMPTY_STAGE, parts).args == StageOf(parts).args
  {
    assert EMPTY_STAGE.args + Words(parts) == Words(parts);
    ArgsOf(EMPTY_STAGE, parts);
  }

  lemma PartsMakeRedirection(parts: seq<Part>)
    requires |Outputs(parts)| <= 1
    ensures WithParts(EMPTY_STAGE, parts).redirection == StageOf(parts).redirection
  {
    InputOf(EMPTY_STAGE, parts);
    OutputOf(EMPTY_STAGE, parts);
  }

  /** A word that is read extends the stage by that argument. */
  lemma AbsorbsArg(l: Lexeme, broken: bool, makepipe: bool, stage: Stage, part: Part)
    requires part.Arg? && l.token == Word && l.text == part.word
    requires FitsBuffer(part) && |stage.args| < MAXARG
    ensures Absorbed(l, broken, makepipe, stage) == (WithPart(stage, part), l.rest)
  {
    StoredWhole(part.word, MAXWORD);
    if |stage.args| == MAXARG - 1 {
      assert Cut(stage.args + [part.word]) == stage.args;
    } else {
      assert Cut(stage.args + [part.word]) == stage.args + [part.word];
    }
  }

  /** A redirection that is read extends the stage by its file. */
  lemma AbsorbsFile(l: Lexeme, broken: bool, makepipe: bool, stage: Stage, part: Part)
    requires !part.Arg? && l.token == PartTokens(part)[0].0
    requires Next(l.rest, broken).token == Word && Next(l.rest, broken).text == part.file
    requires FitsBuffer(part) && |stage.args| < MAXARG
    requires (part.From? ==> !makepipe) && (part.Into? ==> stage.redirection.dst == STDOUT)
    ensures Absorbed(l, broken, makepipe, stage) == (WithPart(stage, part), Next(l.rest, broken).rest)
  {
    StoredWhole(part.file, MAXFNAME);
  }

  ghost predicate StartsWith(items: seq<Item>, tokens: seq<(Token, string)>) {
    |tokens| <= |items| && forall i | 0 <= i < |tokens| :: (items[i].token, items[i].text) == tokens[i]
  }

  lemma StartsInTurn(items: seq<Item>, a: seq<(Token, string)>, b: seq<(Token, string)>)
    requires StartsWith(items, a + b)
    ensures StartsWith(items, a) && StartsWith(items[|a|..], b)
    ensures items[|a|..][|b|..] == items[|a + b|..]
  {
    forall i | 0 <= i < |a| ensures (items[i].token, items[i].text) == a[i] {
      assert (a + b)[i] == a[i];
    }
    forall i | 0 <= i < |b| ensures (items[|a|..][i].token, items[|a|..][i].text) == b[i] {
      assert (a + b)[|a| + i] == b[i] && items[|a|..][i] == items[|a| + i];
    }
  }

  lemma ReadPart(items: seq<Item>, part: Part, stage: Stage, tail: string, broken: bool, makepipe: bool)
    requires Legal(items, tail) && StartsWith(items, PartTokens(part))
    requires FitsBuffer(part) && |stage.args| < MAXARG
    requires (part.From? ==> !makepipe) && (part.Into? ==> stage.redirection.dst == STDOUT)
    ensures ReadStage(Written(items) + tail, broken, makepipe, stage) ==
            ReadStage(Written(items[|PartTokens(part)|..]) + tail, broken, makepipe, WithPart(stage, part))
  {
    assert (items[0].token, items[0].text) == PartTokens(part)[0];
    NextItem(items, tail, broken);
    var l := Next(Written(items) + tail, broken);
    if part.Arg? {
      AbsorbsArg(l, broken, makepipe, stage, part);
    } else {
      assert (items[1].token, items[1].text) == PartTokens(part)[1];
      LegalFrom(items, tail, 1);
      NextItem(items[1..], tail, broken);
      assert items[1..][1..] == items[2..];
      AbsorbsFile(l, broken, makepipe, stage, part);
    }
  }

  lemma CutOnce(a: seq<string>, b: seq<string>)
    ensures Cut(Cut(a) + b) == Cut(a + b)
  {
  }

  lemma {:induction false} ReadParts(items: seq<Item>, parts: seq<Part>, stage: Stage,
                                     tail: string, broken: bool, makepipe: bool)
    requires Legal(items, tail) && StartsWith(items, StageTokens(parts))
    requires (forall i | 0 <= i < |parts| :: FitsBuffer(parts[i])) && |stage.args| < MAXARG
    requires makepipe ==> Inputs(parts) == []
    requires |Outputs(parts)| <= if stage.redirection.dst == STDOUT then 1 else 0
    ensures ReadStage(Written(items) + tail, broken, makepipe, stage) ==
            ReadStage(Written(items[|StageTokens(parts)|..]) + tail, broken, makepipe, WithParts(stage, parts))
    decreases |parts|
  {
    if parts == [] {
      assert items[0..] == items;
    } else {
      var part, rest := parts[0], parts[1..];
      StartsInTurn(items, PartTokens(part), StageTokens(rest));
      ReadPart(items, part, stage, tail, broken, makepipe);
      LegalFrom(items, tail, |PartTokens(part)|);
      ReadParts(items[|PartTokens(part)|..], rest, WithPart(stage, part), tail, broken, makepipe);
    }
  }

  /** Reading one written stage and the token after it. */
  lemma ReadWritten(parts: seq<Part>, next: Token, others: seq<(Token, string)>, items: seq<Item>,
                    tail: string, broken: bool, afterPipe: bool) returns (more: seq<Item>)
    requires WellFormedStage(parts, !afterPipe, next != Bar) && next in {Bar, Amp, Semi, Newline}
    requires Legal(items, tail) && Tokens(items) == StageTokens(parts) + ([(next, "")] + others)
    ensures Legal(more, tail) && Tokens(more) == others
    ensures ReadStage(Written(items) + tail, broken, afterPipe, EMPTY_STAGE) ==
            Reading(StageOf(parts), next, Written(more) + tail)
  {
    var after := items[|StageTokens(parts)|..];
    more := after[1..];
    TokensStart(items, StageTokens(parts), [(next, "")] + others);
    ReadParts(items, parts, EMPTY_STAGE, tail, broken, afterPipe);
    PartsMakeStage(parts);
    LegalFrom(items, tail, |StageTokens(parts)|);
    NextItem(after, tail, broken);
    TokensStart(after, [(next, "")], others);
    LegalFrom(after, tail, 1);
  }

  /** Parsing undoes printing: every well-formed pipeline, written with any legal spelling and
      spacing, is read back as its stages and terminator, and nothing after it is touched. */
  lemma {:induction false} ParseOfPrint(stages: seq<seq<Part>>, term: Token, items: seq<Item>,
                                        tail: string, broken: bool, afterPipe: bool)
    requires stages != [] && term in {Amp, Semi, Newline} && WellFormed(stages, afterPipe)
    requires Legal(items, tail) && Tokens(items) == LineTokens(stages, term)
    ensures ParseFrom(Written(items) + tail, broken, afterPipe) == Line(StagesOf(stages), term, tail)
    decreases |stages|
  {
    var parts := stages[0];
    assert WellFormedStage(parts, !afterPipe, |stages| == 1);
    if |stages| == 1 {
      assert LineTokens(stages, term) == StageTokens(parts) + ([(term, "")] + []);
      var more := ReadWritten(parts, term, [], items, tail, broken, afterPipe);
      NothingWritten(more, tail);
      ParsedOne(Written(items) + tail, broken, afterPipe, StageOf(parts), term, tail);
    } else {
      var more := ReadWritten(parts, Bar, LineTokens(stages[1..], term), items, tail, broken, afterPipe);
      WellFormedTail(stages, afterPipe);
      ParseOfPrint(stages[1..], term, more, tail, broken, true);
      ParsedMore(Written(items) + tail, broken, afterPipe, StageOf(parts), Written(more) + tail);
    }
  }

  lemma NothingWritten(items: seq<Item>, tail: string)
    requires Tokens(items) == []
    ensures Written(items) + tail == tail
  {
    assert |Tokens(items)| == |items|;
  }

  lemma TokensStart(items: seq<Item>, a: seq<(Token, string)>, b: seq<(Token, string)>)
    requires Tokens(items) == a + b
    ensures StartsWith(items, a) && Tokens(items[|a|..]) == b
    ensures b != [] ==> items[|a|..] != [] && (items[|a|..][0].token, items[|a|..][0].text) == b[0]
  {
    assert |Tokens(items)| == |items|;
    forall i | 0 <= i < |a| ensures (items[i].token, items[i].text) == a[i] {
      assert Tokens(items)[i] == a[i];
    }
    assert Tokens(items[|a|..]) == Tokens(items)[|a|..];
    assert b != [] ==> Tokens(items[|a|..])[0] == b[0];
  }

  lemma WellFormedTail(stages: seq<seq<Part>>, afterPipe: bool)
    requires 1 < |stages| && WellFormed(stages, afterPipe)
    ensures WellFormed(stages[1..], true)
  {
    forall i | 0 <= i < |stages[1..]|
      ensures WellFormedStage(stages[1..][i], !true && i == 0, i == |stages[1..]| - 1)
    {
      assert WellFormedStage(stages[i + 1], !afterPipe && i + 1 == 0, i + 1 == |stages| - 1);
    }
  }

  // ---------- Running what was printed ----------

  predicate AllPrograms(stages: seq<seq<Part>>) {
    forall i | 0 <= i < |stages| :: External(StageOf(stages[i]).args)
  }

  /** Running a printed pipeline of external commands: every stage becomes a process with the
      words and files that were printed, connected to its neighbours, from right to left. */
  lemma RunOfPrint(k: Kernel, stages: seq<seq<Part>>, term: Token, items: seq<Item>, tail: string, broken: bool)
    requires Clean(k.fds)
    requires stages != [] && term in {Amp, Semi, Newline} && WellFormed(stages, false) && AllPrograms(stages)
    requires Legal(items, tail) && Tokens(items) == LineTokens(stages, term)
    ensures var p := ParseLine(Written(items) + tail, broken);
            && p == Line(StagesOf(stages), term, tail)
            && Wired(k, StagesOf(stages), false, term == Amp, Launch(k, p.stages, false, p.term == Amp))
  {
    ParseOfPrint(stages, term, items, tail, broken, false);
    ParsedWellShaped(Written(items) + tail, broken, false);
    forall i | 0 <= i < |stages| ensures External(StagesOf(stages)[i].args) {
      MappedAt(StageOf, stages, i);
    }
    LaunchWires(k, StagesOf(stages), false, term == Amp);
  }
}
