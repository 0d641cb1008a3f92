/** What the shell's lexer accepts, said as a grammar, and the proof that the lexer function
    meets it in both directions. */
module LexerGrammar {
  import opened Lexer

  predicate Blank(s: string) {
    forall i | 0 <= i < |s| :: IsBlank(s[i])
  }

  predicate NoDelimiter(s: string) {
    forall i | 0 <= i < |s| :: !IsDelimiter(s[i])
  }

  /** `body` is the inside of a quoted word standing for `text`: a quotation mark or a
      backslash needs a backslash before it, any other character may have one. */
  predicate QuotedBody(text: string, body: string)
    decreases |body|
  {
    if body == [] then text == []
    else if body[0] == '\\' then
      2 <= |body| && text != [] && text[0] == body[1] && QuotedBody(text[1..], body[2..])
    else
      body[0] != '"' && text != [] && text[0] == body[0] && QuotedBody(text[1..], body[1..])
  }

  predicate PlainWord(text: string, body: string) {
    body == text && text != [] && text[0] != '"' && NoDelimiter(text)
  }

  predicate QuotedWord(text: string, body: string) {
    2 <= |body| && body[0] == '"' && body[|body| - 1] == '"' && QuotedBody(text, body[1..|body| - 1])
  }

  /** `body` is a way of writing the token. */
  predicate Spells(token: Token, text: string, body: string) {
    match token
    case Word => PlainWord(text, body) || QuotedWord(text, body)
    case Bar => text == [] && body == "|"
    case Amp => text == [] && body == "&"
    case Semi => text == [] && body == ";"
    case Gt => text == [] && body == ">"
    case GtGt => text == [] && body == ">>"
    case Lt => text == [] && body == "<"
    case Newline => text == [] && body == "\n"
    case EndOfFile => false
    case Error => false
  }

  /** The token ends where `body` ends: a plain word needs a delimiter after it, and a
      single `>` some character other than `>`; the end of the input is neither. */
  predicate Ends(token: Token, body: string, rest: string) {
    && (token == Word && body != [] && body[0] != '"' ==> rest != [] && IsDelimiter(rest[0]))
    && (token == Gt ==> rest != [] && rest[0] != '>')
  }

  /** `s` begins with blanks and then the token. */
  predicate Reads(s: string, lead: string, body: string, l: Lexeme) {
    && s == lead + (body + l.rest)
    && Blank(lead)
    && Spells(l.token, l.text, body)
    && Ends(l.token, body, l.rest)
  }

  lemma {:induction false} ScanSkipsBlanks(lead: string, s: string, broken: bool)
    requires Blank(lead)
    ensures Scan(Neutral, [], lead + s, broken) == Scan(Neutral, [], s, broken)
  {
    if lead == [] {
      assert lead + s == s;
    } else {
      assert (lead + s)[1..] == lead[1..] + s;
      ScanSkipsBlanks(lead[1..], s, broken);
    }
  }

  lemma {:induction false} ScanPlain(text: string, body: string, rest: string, broken: bool)
    requires NoDelimiter(body) && rest != [] && IsDelimiter(rest[0])
    ensures Scan(InWord, text, body + rest, broken) == Lexeme(Word, text + body, rest)
    decreases |body|
  {
    if body == [] {
      assert body + rest == rest;
      assert text + body == text;
    } else {
      assert (body + rest)[1..] == body[1..] + rest;
      assert text + [body[0]] + body[1..] == text + body;
      ScanPlain(text + [body[0]], body[1..], rest, broken);
    }
  }

  lemma {:induction false} ScanQuoted(text: string, more: string, body: string, rest: string, broken: bool)
    requires QuotedBody(more, body)
    ensures Scan(InQuote, text, body + (['"'] + rest), broken) == Lexeme(Word, text + more, rest)
    decreases |body|
  {
    var s := body + (['"'] + rest);
    if body == [] {
      assert s == ['"'] + rest;
      assert text + more == text;
    } else if body[0] == '\\' {
      assert s[1..] == body[1..] + (['"'] + rest);
      assert s[1..][1..] == body[2..] + (['"'] + rest);
      assert text + [more[0]] + more[1..] == text + more;
      ScanQuoted(text + [more[0]], more[1..], body[2..], rest, broken);
    } else {
      assert s[1..] == body[1..] + (['"'] + rest);
      assert text + [more[0]] + more[1..] == text + more;
      ScanQuoted(text + [more[0]], more[1..], body[1..], rest, broken);
    }
  }

  lemma PlainReads(text: string, rest: string, broken: bool)
    requires PlainWord(text, text) && rest != [] && IsDelimiter(rest[0])
    ensures Next(text + rest, broken) == Lexeme(Word, text, rest)
  {
    var t := text + rest;
    assert t[0] == text[0] && t[1..] == text[1..] + rest && [] + [text[0]] == [text[0]];
    assert [text[0]] + text[1..] == text;
    ScanPlain([text[0]], text[1..], rest, broken);
  }

  lemma QuotedReads(text: string, body: string, rest: string, broken: bool)
    requires QuotedWord(text, body)
    ensures Next(body + rest, broken) == Lexeme(Word, text, rest)
  {
    var t, inside := body + rest, body[1..|body| - 1];
    assert t[0] == '"' && t[1..] == inside + (['"'] + rest) && [] + text == text;
    ScanQuoted([], text, inside, rest, broken);
  }

  lemma OperatorReads(token: Token, text: string, body: string, rest: string, broken: bool)
    requires token != Word && Spells(token, text, body) && Ends(token, body, rest)
    ensures Next(body + rest, broken) == Lexeme(token, text, rest)
  {
    var t := body + rest;
    if token == GtGt {
      assert t[1..] == ['>'] + rest && t[1..][1..] == rest;
      assert Next(t, broken) == Scan(SeenGt, [], ['>'] + rest, broken);
    } else if token == Gt {
      assert t[0] == '>' && t[1..] == rest;
      assert Next(t, broken) == Scan(SeenGt, [], rest, broken);
    } else {
      assert t[0] == body[0] && t[1..] == rest;
    }
  }

  /** Everything the grammar allows is read as the token it spells. */
  lemma NextReads(s: string, lead: string, body: string, l: Lexeme, broken: bool)
    requires Reads(s, lead, body, l)
    ensures Next(s, broken) == l
  {
    ScanSkipsBlanks(lead, body + l.rest, broken);
    if l.token != Word {
      OperatorReads(l.token, l.text, body, l.rest, broken);
    } else if PlainWord(l.text, body) {
      PlainReads(l.text, l.rest, broken);
    } else {
      QuotedReads(l.text, body, l.rest, broken);
    }
  }

  lemma {:induction false} ScanPlainSound(text: string, s: string, broken: bool) returns (body: string)
    requires Scan(InWord, text, s, broken).token == Word
    ensures var l := Scan(InWord, text, s, broken);
            && s == body + l.rest && l.text == text + body && NoDelimiter(body)
            && l.rest != [] && IsDelimiter(l.rest[0])
    decreases |s|
  {
    if IsDelimiter(s[0]) {
      body := [];
    } else {
      var tail := ScanPlainSound(text + [s[0]], s[1..], broken);
      body := [s[0]] + tail;
    }
  }

  lemma QuotedBodyMore(text: string, body: string, c: char)
    requires QuotedBody(text, body)
    ensures QuotedBody([c] + text, ['\\', c] + body)
    ensures c != '"' && c != '\\' ==> QuotedBody([c] + text, [c] + body)
  {
    assert ([c] + text)[1..] == text && ([c] + body)[1..] == body && (['\\', c] + body)[2..] == body;
  }

  lemma ScanEscape(text: string, s: string, broken: bool)
    requires s != [] && s[0] == '\\' && Scan(InQuote, text, s, broken).token == Word
    ensures 2 <= |s| && Scan(InQuote, text, s, broken) == Scan(InQuote, text + [s[1]], s[2..], broken)
  {
    if 2 <= |s| {
      assert s[1..][1..] == s[2..];
    }
  }

  lemma {:induction false} ScanQuotedSound(text: string, s: string, broken: bool) returns (more: string, body: string)
    requires Scan(InQuote, text, s, broken).token == Word
    ensures var l := Scan(InQuote, text, s, broken);
            s == body + (['"'] + l.rest) && l.text == text + more && QuotedBody(more, body)
    decreases |s|
  {
    if s[0] == '"' {
      more, body := [], [];
    } else if s[0] == '\\' {
      ScanEscape(text, s, broken);
      var c := s[1];
      var m, b := ScanQuotedSound(text + [c], s[2..], broken);
      assert text + [c] + m == text + ([c] + m);
      more, body := [c] + m, ['\\', c] + b;
      QuotedBodyMore(m, b, c);
    } else {
      var m, b := ScanQuotedSound(text + [s[0]], s[1..], broken);
      assert text + [s[0]] + m == text + ([s[0]] + m);
      more, body := [s[0]] + m, [s[0]] + b;
      QuotedBodyMore(m, b, s[0]);
    }
  }

  lemma {:induction false} InsideTokens(state: State, text: string, s: string, broken: bool)
    requires state in {InQuote, InWord}
    ensures Scan(state, text, s, broken).token in {Word, Error, EndOfFile}
    decreases |s|
  {
    if s != [] {
      InsideTokens(state, text + [s[0]], s[1..], broken);
      if 1 < |s| {
        InsideTokens(state, text + [s[1]], s[2..], broken);
        assert s[1..][1..] == s[2..];
      }
      InsideTokens(state, text + ['\\'], s[1..], broken);
    }
  }

  lemma Unquoted(s: string, inside: string, rest: string)
    requires s != [] && s[0] == '"' && s[1..] == inside + (['"'] + rest)
    ensures var body := ['"'] + inside + ['"'];
            s == [] + (body + rest) && body[1..|body| - 1] == inside
  {
    assert s == [s[0]] + s[1..];
  }

  lemma QuotedSound(s: string, broken: bool) returns (body: string)
    requires s != [] && s[0] == '"' && Next(s, broken).token !in {EndOfFile, Error}
    ensures Reads(s, [], body, Next(s, broken))
  {
    var l := Scan(InQuote, [], s[1..], broken);
    InsideTokens(InQuote, [], s[1..], broken);
    var more, inside := ScanQuotedSound([], s[1..], broken);
    assert [] + more == more == l.text;
    body := ['"'] + inside + ['"'];
    Unquoted(s, inside, l.rest);
  }

  lemma PlainSound(s: string, broken: bool) returns (body: string)
    requires s != [] && s[0] != '"' && !IsDelimiter(s[0]) && Next(s, broken).token !in {EndOfFile, Error}
    ensures Reads(s, [], body, Next(s, broken))
  {
    assert [] + [s[0]] == [s[0]];
    var l := Scan(InWord, [s[0]], s[1..], broken);
    InsideTokens(InWord, [s[0]], s[1..], broken);
    var more := ScanPlainSound([s[0]], s[1..], broken);
    body := [s[0]] + more;
    assert s == [s[0]] + s[1..] == [] + (body + l.rest);
  }

  lemma OperatorSound(s: string, broken: bool) returns (body: string)
    requires s != [] && IsDelimiter(s[0]) && !IsBlank(s[0]) && Next(s, broken).token !in {EndOfFile, Error}
    ensures Reads(s, [], body, Next(s, broken))
  {
    if s[0] == '>' {
      body := GtSound(s, broken);
    } else {
      body := [s[0]];
      assert Next(s, broken).rest == s[1..];
      assert s == [] + (body + s[1..]);
    }
  }

  lemma GtSound(s: string, broken: bool) returns (body: string)
    requires s != [] && s[0] == '>' && Next(s, broken).token !in {EndOfFile, Error}
    ensures Reads(s, [], body, Next(s, broken))
  {
    var l, t := Scan(SeenGt, [], s[1..], broken), s[1..];
    assert Next(s, broken) == l;
    if t[0] == '>' {
      body := ">>";
      assert l == Lexeme(GtGt, [], t[1..]) && s == [] + (body + t[1..]);
    } else {
      body := ">";
      assert l == Lexeme(Gt, [], t) && s == [] + (body + t);
    }
  }

  /** Everything the lexer reads is spelled as the grammar says. */
  lemma {:induction false} NextSound(s: string, broken: bool) returns (lead: string, body: string)
    requires Next(s, broken).token !in {EndOfFile, Error}
    ensures Reads(s, lead, body, Next(s, broken))
    decreases |s|
  {
    lead := [];
    if IsBlank(s[0]) {
      lead, body := NextSound(s[1..], broken);
      assert s == [s[0]] + s[1..];
      lead := [s[0]] + lead;
    } else if s[0] == '"' {
      body := QuotedSound(s, broken);
    } else if IsDelimiter(s[0]) {
      body := OperatorSound(s, broken);
    } else {
      body := PlainSound(s, broken);
    }
  }

  /** The lexer reads exactly the token the text begins with, and nothing else counts as one. */
  lemma LexerMeetsGrammar(s: string, l: Lexeme, broken: bool)
    requires l.token !in {EndOfFile, Error}
    ensures Next(s, broken) == l <==> exists lead, body :: Reads(s, lead, body, l)
  {
    if Next(s, broken) == l {
      var lead, body := NextSound(s, broken);
      assert Reads(s, lead, body, l);
    }
    forall lead, body | Reads(s, lead, body, l) ensures Next(s, broken) == l {
      NextReads(s, lead, body, l, broken);
    }
  }

  /** Every call consumes something or reports the end of the input, and then all is consumed. */
  lemma NextConsumes(s: string, broken: bool)
    ensures var l := Next(s, broken);
            if l.token in {EndOfFile, Error} then l.rest == [] else |l.rest| < |s|
  {
    if Next(s, broken).token !in {EndOfFile, Error} {
      var lead, body := NextSound(s, broken);
    }
  }

  // ---------- The same in characters ----------

  lemma {:induction false} QuotedBodyLonger(text: string, body: string)
    requires QuotedBody(text, body)
    ensures |text| <= |body|
    decreases |body|
  {
    if body != [] {
      QuotedBodyLonger(text[1..], body[if body[0] == '\\' then 2 else 1..]);
    }
  }

  /** Characters at the front of the input that do not begin with a quotation mark are read as a word
      exactly if there is no blank, tab, newline or operator among them, and one comes after. */
  lemma PlainWordIff(word: string, rest: string, broken: bool)
    requires word != [] && word[0] != '"'
    ensures Next(word + rest, broken) == Lexeme(Word, word, rest) <==>
      && (forall i | 0 <= i < |word| :: word[i] !in " \t\n;&|<>")
      && rest != [] && rest[0] in " \t\n;&|<>"
  {
    if (forall i | 0 <= i < |word| :: word[i] !in " \t\n;&|<>") && rest != [] && rest[0] in " \t\n;&|<>" {
      PlainReads(word, rest, broken);
    }
    if Next(word + rest, broken) == Lexeme(Word, word, rest) {
      var lead, body := NextSound(word + rest, broken);
      assert |lead| + |body| == |word|;
      if QuotedWord(word, body) {
        QuotedBodyLonger(word, body[1..|body| - 1]);
      }
    }
  }

  /** A text with a backslash before every quotation mark and every backslash. */
  function Escaped(text: string): string {
    if text == [] then []
    else (if text[0] == '"' || text[0] == '\\' then ['\\', text[0]] else [text[0]]) + Escaped(text[1..])
  }

  /** A text with a backslash before every character. */
  function AllEscaped(text: string): string {
    if text == [] then [] else ['\\', text[0]] + AllEscaped(text[1..])
  }

  lemma {:induction false} EscapedIsQuoted(text: string)
    ensures QuotedBody(text, Escaped(text)) && QuotedBody(text, AllEscaped(text))
  {
    if text != [] {
      EscapedIsQuoted(text[1..]);
      assert [text[0]] + text[1..] == text;
      QuotedBodyMore(text[1..], Escaped(text[1..]), text[0]);
      QuotedBodyMore(text[1..], AllEscaped(text[1..]), text[0]);
    }
  }

  /** Any text whatever can be written in quotation marks: escaped where it must be, or everywhere. */
  lemma QuotingWorks(text: string, rest: string, broken: bool)
    ensures Next(['"'] + Escaped(text) + ['"'] + rest, broken) == Lexeme(Word, text, rest)
    ensures Next(['"'] + AllEscaped(text) + ['"'] + rest, broken) == Lexeme(Word, text, rest)
  {
    EscapedIsQuoted(text);
    QuotedIs(text, Escaped(text), rest, broken);
    QuotedIs(text, AllEscaped(text), rest, broken);
  }

  lemma QuotedIs(text: string, inside: string, rest: string, broken: bool)
    requires QuotedBody(text, inside)
    ensures Next(['"'] + inside + ['"'] + rest, broken) == Lexeme(Word, text, rest)
  {
    var body := ['"'] + inside + ['"'];
    assert body[1..|body| - 1] == inside;
    QuotedReads(text, body, rest, broken);
  }
}
